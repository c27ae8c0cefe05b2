/** The handful of JavaScript string built-ins the browser scripts rely on:
    `trim`, `includes`, `endsWith`, `toLowerCase`/`toUpperCase`, `padStart`
    and number-to-string conversion. Strings are sequences of characters. */
module JsText {

  /** The characters `String.prototype.trim` removes: the WhiteSpace and
      LineTerminator code points of ECMA-262 (section 12.2 and 12.3). */
  predicate IsSpace(c: char) {
    || c == '\t' || c == '\n' || c == '\U{000B}' || c == '\U{000C}' || c == '\r'
    || c == ' ' || c == '\U{00A0}' || c == '\U{1680}'
    || ('\U{2000}' <= c <= '\U{200A}')
    || c == '\U{2028}' || c == '\U{2029}' || c == '\U{202F}' || c == '\U{205F}'
    || c == '\U{3000}' || c == '\U{FEFF}'
  }

  predicate AllSpace(s: string) {
    forall i :: 0 <= i < |s| ==> IsSpace(s[i])
  }

  /** No white space at either end. */
  predicate Trimmed(s: string) {
    |s| == 0 || (!IsSpace(s[0]) && !IsSpace(s[|s| - 1]))
  }

  /** How many white-space characters open `s`. */
  function LeadingSpaces(s: string): (n: nat)
    ensures n <= |s| && AllSpace(s[..n])
    ensures n == |s| || !IsSpace(s[n])
  {
    if |s| > 0 && IsSpace(s[0]) then
      var k := LeadingSpaces(s[1..]);
      assert s[..k + 1] == [s[0]] + s[1..][..k];
      k + 1
    else 0
  }

  /** How many white-space characters close `s`. */
  function TrailingSpaces(s: string): (n: nat)
    ensures n <= |s| && AllSpace(s[|s| - n..])
    ensures n == |s| || !IsSpace(s[|s| - n - 1])
  {
    if |s| > 0 && IsSpace(s[|s| - 1]) then
      var t := s[..|s| - 1];
      var k := TrailingSpaces(t);
      assert s[|s| - (k + 1)..] == t[|t| - k..] + [s[|s| - 1]];
      k + 1
    else 0
  }

  /** `s.trim()`: the input with its leading and trailing white space removed. */
  function Trim(s: string): (r: string)
    ensures Trimmed(r)
    ensures |r| <= |s|
  {
    var t := s[LeadingSpaces(s)..];
    t[..|t| - TrailingSpaces(t)]
  }

  /** What Trim removes is white space on either side of its result. */
  lemma TrimSplit(s: string) returns (a: string, b: string)
    ensures AllSpace(a) && AllSpace(b) && s == a + Trim(s) + b
  {
    var lo := LeadingSpaces(s);
    var t := s[lo..];
    var hi := TrailingSpaces(t);
    var m := t[..|t| - hi];
    a, b := s[..lo], t[|t| - hi..];
    SplitAt(s, lo);
    SplitAt(t, |t| - hi);
    ConcatAssoc(a, m, b);
  }

  lemma SplitAt(s: string, k: nat)
    requires k <= |s|
    ensures s[..k] + s[k..] == s
  {
  }

  lemma ConcatAssoc(a: string, m: string, b: string)
    ensures a + m + b == a + (m + b)
  {
  }

  /** Trim is determined by that shape: whatever is left between two runs of
      white space, with no white space at its own ends, is the trim. */
  lemma {:induction false} TrimUnique(a: string, m: string, b: string)
    requires AllSpace(a) && AllSpace(b) && Trimmed(m)
    ensures Trim(a + m + b) == m
  {
    if |m| == 0 {
      assert a + m + b == (a + b) + "";
      assert AllSpace(a + b) by {
        forall i | 0 <= i < |a + b|
          ensures IsSpace((a + b)[i])
        {
          if i < |a| { assert (a + b)[i] == a[i]; } else { assert (a + b)[i] == b[i - |a|]; }
        }
      }
      LeadingOfSpaces(a + b, "");
    } else {
      var s := a + m + b;
      assert s == a + (m + b);
      LeadingOfSpaces(a, m + b);
      assert s[|a|..] == m + b;
      TrailingOfSpaces(m, b);
    }
  }

  lemma {:induction false} LeadingOfSpaces(a: string, rest: string)
    requires AllSpace(a)
    requires |rest| == 0 || !IsSpace(rest[0])
    ensures LeadingSpaces(a + rest) == |a|
    decreases |a|
  {
    if |a| > 0 {
      assert (a + rest)[1..] == a[1..] + rest;
      LeadingOfSpaces(a[1..], rest);
    } else {
      assert a + rest == rest;
    }
  }

  lemma {:induction false} TrailingOfSpaces(m: string, b: string)
    requires AllSpace(b)
    requires |m| == 0 || !IsSpace(m[|m| - 1])
    ensures TrailingSpaces(m + b) == |b|
    decreases |b|
  {
    if |b| > 0 {
      assert (m + b)[..|m + b| - 1] == m + b[..|b| - 1];
      TrailingOfSpaces(m, b[..|b| - 1]);
    } else {
      assert m + b == m;
    }
  }

  /** `text.includes(pat)`: `pat` occurs in `text` at some offset. */
  predicate Contains(text: string, pat: string) {
    exists i :: 0 <= i <= |text| - |pat| && pat <= text[i..]
  }

  /** `s.endsWith(suffix)` */
  predicate EndsWith(s: string, suffix: string) {
    |suffix| <= |s| && s[|s| - |suffix|..] == suffix
  }

  function LowerChar(c: char): char {
    if 'A' <= c <= 'Z' then (c as int + 32) as char else c
  }

  function UpperChar(c: char): char {
    if 'a' <= c <= 'z' then (c as int - 32) as char else c
  }

  /** `s.toLowerCase()`, folding the ASCII letters only. */
  function ToLower(s: string): (r: string)
    ensures |r| == |s|
    ensures forall i :: 0 <= i < |s| ==> r[i] == LowerChar(s[i])
  {
    seq(|s|, i requires 0 <= i < |s| => LowerChar(s[i]))
  }

  /** `s.toUpperCase()`, folding the ASCII letters only. */
  function ToUpper(s: string): (r: string)
    ensures |r| == |s|
    ensures forall i :: 0 <= i < |s| ==> r[i] == UpperChar(s[i])
  {
    seq(|s|, i requires 0 <= i < |s| => UpperChar(s[i]))
  }

  function Repeat(c: char, n: nat): (r: string)
    ensures |r| == n && forall i :: 0 <= i < n ==> r[i] == c
  {
    if n == 0 then [] else [c] + Repeat(c, n - 1)
  }

  /** `s.padStart(len, fill)` for a one-character fill string. */
  function PadStart(s: string, len: nat, fill: char): (r: string)
    ensures |s| >= len ==> r == s
    ensures |s| < len ==> |r| == len && r[len - |s|..] == s
                          && forall i :: 0 <= i < len - |s| ==> r[i] == fill
  {
    if |s| >= len then s else Repeat(fill, len - |s|) + s
  }

  predicate IsDigit(c: char) {
    '0' <= c <= '9'
  }

  predicate AllDigits(s: string) {
    forall i :: 0 <= i < |s| ==> IsDigit(s[i])
  }

  function DigitChar(d: nat): (c: char)
    requires d < 10
    ensures IsDigit(c) && c as int - '0' as int == d
  {
    ('0' as int + d) as char
  }

  /** The value of a string of decimal digits ("" reads as 0). */
  function DecimalValue(s: string): nat
    requires AllDigits(s)
  {
    if |s| == 0 then 0
    else 10 * DecimalValue(s[..|s| - 1]) + (s[|s| - 1] as int - '0' as int)
  }

  /** `String(n)` for a non-negative integer: its shortest decimal spelling. */
  function NatToString(n: nat): (r: string)
    ensures |r| >= 1 && AllDigits(r)
    ensures |r| > 1 ==> r[0] != '0'
    ensures n < 10 <==> |r| == 1
  {
    if n < 10 then [DigitChar(n)] else NatToString(n / 10) + [DigitChar(n % 10)]
  }

  /** `String(i)` for any integer: a minus sign for negatives. */
  function IntToString(i: int): (r: string)
    ensures |r| >= 1
    ensures i < 0 <==> r[0] == '-'
  {
    if i < 0 then "-" + NatToString(-i) else NatToString(i)
  }

  /** Reading back the spelling of a number gives that number. */
  lemma {:induction false} DecimalRoundTrip(n: nat)
    ensures DecimalValue(NatToString(n)) == n
  {
    if n >= 10 {
      var s := NatToString(n);
      assert s[..|s| - 1] == NatToString(n / 10);
      DecimalRoundTrip(n / 10);
    }
  }

  /** Leading zeros do not change a digit string's value. */
  lemma {:induction false} LeadingZeros(k: nat, s: string)
    requires AllDigits(s)
    ensures AllDigits(Repeat('0', k) + s)
    ensures DecimalValue(Repeat('0', k) + s) == DecimalValue(s)
    decreases |s|
  {
    var z := Repeat('0', k);
    if |s| == 0 {
      assert z + s == z;
      ZerosValue(k);
    } else {
      var t := z + s;
      assert t[..|t| - 1] == z + s[..|s| - 1];
      LeadingZeros(k, s[..|s| - 1]);
    }
  }

  lemma {:induction false} ZerosValue(k: nat)
    ensures AllDigits(Repeat('0', k)) && DecimalValue(Repeat('0', k)) == 0
  {
    if k > 0 {
      var z := Repeat('0', k);
      assert z[..|z| - 1] == Repeat('0', k - 1);
      ZerosValue(k - 1);
    }
  }
}
