/**
  Models of the JavaScript string built-ins that the planner's core relies on:
  `Number` on decimal digit strings, `String(n)`, `padStart`, `split`,
  `includes`, `toLowerCase` and `trim`. Strings are sequences of characters.
 */
module Strings {

  predicate IsDigit(c: char) {
    '0' <= c <= '9'
  }

  predicate AllDigits(s: string) {
    forall i :: 0 <= i < |s| ==> IsDigit(s[i])
  }

  function DigitValue(c: char): (d: nat)
    requires IsDigit(c)
    ensures d < 10
  {
    c as int - '0' as int
  }

  function DigitChar(d: nat): (c: char)
    requires d < 10
    ensures IsDigit(c) && DigitValue(c) == d
  {
    ('0' as int + d) as char
  }

  /** `Number(s)` for a string made only of decimal digits; `Number("")` is 0. */
  function DecimalValue(s: string): nat
    requires AllDigits(s)
    decreases |s|
  {
    if |s| == 0 then 0 else DecimalValue(s[..|s| - 1]) * 10 + DigitValue(s[|s| - 1])
  }

  /** `String(n)` for a non-negative integer: decimal, no leading zeros. */
  function NatToString(n: nat): (r: string)
    ensures 1 <= |r| && AllDigits(r)
    ensures DecimalValue(r) == n
    ensures n >= 10 ==> r[0] != '0'
    decreases n
  {
    if n < 10 then [DigitChar(n)] else NatToString(n / 10) + [DigitChar(n % 10)]
  }

  /** `String(n)` is injective: distinct numbers print differently. */
  lemma NatToStringInjective(a: nat, b: nat)
    requires NatToString(a) == NatToString(b)
    ensures a == b
  {
  }

  function Pow10(w: nat): (r: nat)
    ensures r >= 1
  {
    if w == 0 then 1 else 10 * Pow10(w - 1)
  }

  /** `String(n)` has exactly w digits when 10^(w-1) <= n < 10^w. */
  lemma {:induction false} NatToStringWidth(n: nat, w: nat)
    ensures 1 <= w && n < Pow10(w) ==> |NatToString(n)| <= w
    ensures 1 <= w && Pow10(w - 1) <= n ==> |NatToString(n)| >= w
    decreases n
  {
    if n >= 10 {
      assert NatToString(n) == NatToString(n / 10) + [DigitChar(n % 10)];
      if w >= 1 {
        NatToStringWidth(n / 10, w - 1);
      }
    } else if w >= 2 {
      assert Pow10(w - 1) >= 10 by {
        assert Pow10(w - 1) == 10 * Pow10(w - 2);
      }
    }
  }

  function Repeat(c: char, k: nat): (r: string)
    ensures |r| == k
    ensures forall i :: 0 <= i < k ==> r[i] == c
  {
    seq(k, _ => c)
  }

  /** `s.padStart(width, fill)` for a one-character fill. */
  function PadStart(s: string, width: nat, fill: char): (r: string)
    ensures |r| == if |s| >= width then |s| else width
    ensures r[|r| - |s|..] == s
    ensures forall i :: 0 <= i < |r| - |s| ==> r[i] == fill
  {
    if |s| >= width then s else Repeat(fill, width - |s|) + s
  }

  /** Leading zeros do not change `Number(s)`. */
  lemma {:induction false} LeadingZeros(k: nat, s: string)
    requires AllDigits(s)
    ensures AllDigits(Repeat('0', k) + s)
    ensures DecimalValue(Repeat('0', k) + s) == DecimalValue(s)
    decreases |s|
  {
    var z := Repeat('0', k);
    if |s| == 0 {
      assert z + s == z;
      AllZeros(k);
    } else {
      var s' := s[..|s| - 1];
      assert (z + s)[..|z + s| - 1] == z + s';
      LeadingZeros(k, s');
    }
  }

  lemma {:induction false} AllZeros(k: nat)
    ensures AllDigits(Repeat('0', k))
    ensures DecimalValue(Repeat('0', k)) == 0
  {
    if k > 0 {
      assert Repeat('0', k)[..k - 1] == Repeat('0', k - 1);
      AllZeros(k - 1);
    }
  }

  /** `String(n).padStart(w, '0')` is a digit string whose value is still n. */
  lemma PaddedNumber(n: nat, w: nat)
    ensures AllDigits(PadStart(NatToString(n), w, '0'))
    ensures DecimalValue(PadStart(NatToString(n), w, '0')) == n
  {
    var s := NatToString(n);
    if |s| < w {
      LeadingZeros(w - |s|, s);
    }
  }

  /** `String(n).padStart(w, '0')`: a fixed-width field of a date or a time. */
  function PadNumber(n: nat, w: nat): (r: string)
    ensures AllDigits(r) && DecimalValue(r) == n
    ensures 1 <= w && n < Pow10(w) ==> |r| == w
  {
    PaddedNumber(n, w);
    NatToStringWidth(n, w);
    PadStart(NatToString(n), w, '0')
  }

  /** `s.split(sep)` for a one-character separator. */
  function Split(s: string, sep: char): (parts: seq<string>)
    ensures |parts| >= 1
    ensures forall k :: 0 <= k < |parts| ==> sep !in parts[k]
    ensures parts[0] <= s && (|parts[0]| < |s| ==> s[|parts[0]|] == sep)
    decreases |s|
  {
    if |s| == 0 then [""]
    else if s[0] == sep then [""] + Split(s[1..], sep)
    else
      var rest := Split(s[1..], sep);
      [[s[0]] + rest[0]] + rest[1..]
  }

  /** Joining the pieces of `split` with the separator gives back the string. */
  function Join(parts: seq<string>, sep: char): string
    requires |parts| >= 1
    decreases |parts|
  {
    if |parts| == 1 then parts[0] else parts[0] + [sep] + Join(parts[1..], sep)
  }

  lemma {:induction false} SplitJoin(s: string, sep: char)
    ensures Join(Split(s, sep), sep) == s
    decreases |s|
  {
    if |s| == 0 {
    } else if s[0] == sep {
      SplitJoin(s[1..], sep);
      var rest := Split(s[1..], sep);
      assert Split(s, sep)[1..] == rest;
    } else {
      SplitJoin(s[1..], sep);
      var rest := Split(s[1..], sep);
      var parts := Split(s, sep);
      if |rest| == 1 {
        assert parts == [[s[0]] + rest[0]];
      } else {
        assert parts[1..] == rest[1..];
        assert Join(parts, sep) == [s[0]] + rest[0] + [sep] + Join(rest[1..], sep);
      }
    }
  }

  /** The first piece of `split` is everything before the first separator. */
  lemma {:induction false} SplitFirst(a: string, sep: char, b: string)
    requires sep !in a
    ensures Split(a + [sep] + b, sep)[0] == a
    ensures Split(a + [sep] + b, sep)[1..] == Split(b, sep)
    decreases |a|
  {
    var s := a + [sep] + b;
    if |a| == 0 {
      assert s[1..] == b;
    } else {
      assert s[1..] == a[1..] + [sep] + b;
      SplitFirst(a[1..], sep, b);
      assert [a[0]] + a[1..] == a;
    }
  }

  /** A string without the separator is a single piece. */
  lemma {:induction false} SplitNone(s: string, sep: char)
    requires sep !in s
    ensures Split(s, sep) == [s]
    decreases |s|
  {
    if |s| > 0 {
      SplitNone(s[1..], sep);
      assert [s[0]] + s[1..] == s;
    }
  }

  lemma SliceOfSlice(s: string, a: nat, b: nat, c: nat, d: nat)
    requires a <= b <= |s| && c <= d <= b - a
    ensures s[a..b][c..d] == s[a + c..a + d]
  {
    assert forall k :: 0 <= k < d - c ==> s[a..b][c..d][k] == s[a + c + k];
  }

  predicate OccursAt(s: string, p: string, i: nat) {
    i + |p| <= |s| && s[i..i + |p|] == p
  }

  /** `s.includes(p)`: the pattern occurs at some position. */
  predicate Contains(s: string, p: string) {
    exists i: nat | i <= |s| :: OccursAt(s, p, i)
  }

  /** An occurrence at a known position makes `includes` true. */
  lemma ContainsAt(s: string, p: string, i: nat)
    requires OccursAt(s, p, i)
    ensures Contains(s, p)
  {
  }

  /**
    `includes` is false when every candidate position differs from the
    pattern at its first, second or k-th character.
   */
  lemma NotContainsByProbe(s: string, p: string, k: nat)
    requires 2 <= |p| && k < |p|
    requires forall i :: 0 <= i && i + |p| <= |s| ==>
               s[i] != p[0] || s[i + 1] != p[1] || s[i + k] != p[k]
    ensures !Contains(s, p)
  {
    forall i: nat ensures !OccursAt(s, p, i) {
      if i + |p| <= |s| {
        assert s[i..i + |p|][0] == s[i];
        assert s[i..i + |p|][1] == s[i + 1];
        assert s[i..i + |p|][k] == s[i + k];
      }
    }
  }

  /** A string that contains q contains every substring of q. */
  lemma {:induction false} ContainsTransitive(s: string, q: string, p: string)
    requires Contains(s, q) && Contains(q, p)
    ensures Contains(s, p)
  {
    var i: nat :| OccursAt(s, q, i);
    var j: nat :| OccursAt(q, p, j);
    assert OccursAt(s, q, i) && OccursAt(q, p, j);
    SliceOfSlice(s, i, i + |q|, j, j + |p|);
    assert OccursAt(s, p, i + j);
  }

  /** A string lacking some part of p lacks p. */
  lemma NotContainsPart(s: string, part: string, p: string)
    requires Contains(p, part) && !Contains(s, part)
    ensures !Contains(s, p)
  {
    if Contains(s, p) {
      ContainsTransitive(s, p, part);
    }
  }

  function LowerChar(c: char): (d: char)
    ensures !('A' <= d <= 'Z')
  {
    if 'A' <= c <= 'Z' then (c as int + 32) as char else c
  }

  /** `toLowerCase()` on the ASCII letters; other characters are kept. */
  function ToLower(s: string): (r: string)
    ensures |r| == |s|
    ensures forall i :: 0 <= i < |s| ==> r[i] == LowerChar(s[i])
  {
    seq(|s|, i requires 0 <= i < |s| => LowerChar(s[i]))
  }

  lemma ToLowerIdempotent(s: string)
    ensures ToLower(ToLower(s)) == ToLower(s)
  {
  }

  /** The characters `trim()` removes: ECMAScript WhiteSpace and LineTerminator. */
  predicate IsJsSpace(c: char) {
    c == '\t' || c == '\n' || c == '\U{000B}' || c == '\U{000C}' || c == '\r' || c == ' '
    || c == '\U{00A0}' || c == '\U{1680}' || ('\U{2000}' <= c <= '\U{200A}')
    || c == '\U{2028}' || c == '\U{2029}' || c == '\U{202F}' || c == '\U{205F}'
    || c == '\U{3000}' || c == '\U{FEFF}'
  }

  function TrimStart(s: string): (r: string)
    ensures |r| <= |s| && s[|s| - |r|..] == r
    ensures forall i :: 0 <= i < |s| - |r| ==> IsJsSpace(s[i])
    ensures |r| > 0 ==> !IsJsSpace(r[0])
    decreases |s|
  {
    if |s| > 0 && IsJsSpace(s[0]) then TrimStart(s[1..]) else s
  }

  function TrimEnd(s: string): (r: string)
    ensures |r| <= |s| && s[..|r|] == r
    ensures forall i :: |r| <= i < |s| ==> IsJsSpace(s[i])
    ensures |r| > 0 ==> !IsJsSpace(r[|r| - 1])
    decreases |s|
  {
    if |s| > 0 && IsJsSpace(s[|s| - 1]) then TrimEnd(s[..|s| - 1]) else s
  }

  /** `trim()`: drop leading and trailing white space. */
  function Trim(s: string): (r: string)
    ensures |r| <= |s|
    ensures |r| > 0 ==> !IsJsSpace(r[0]) && !IsJsSpace(r[|r| - 1])
    ensures (|s| == 0 || (!IsJsSpace(s[0]) && !IsJsSpace(s[|s| - 1]))) ==> r == s
  {
    TrimEnd(TrimStart(s))
  }

  /** Dropping a first character that cannot start the pattern keeps `includes`. */
  lemma {:induction false} ContainsDropFirst(s: string, p: string)
    requires |s| > 0 && |p| > 0 && s[0] != p[0]
    ensures Contains(s[1..], p) <==> Contains(s, p)
  {
    var t := s[1..];
    if i: nat :| OccursAt(t, p, i) {
      SliceOfSlice(s, 1, |s|, i, i + |p|);
      assert OccursAt(s, p, i + 1);
    }
    if i: nat :| OccursAt(s, p, i) {
      assert s[i..i + |p|][0] == s[i];
      assert i >= 1;
      SliceOfSlice(s, 1, |s|, i - 1, i - 1 + |p|);
      assert OccursAt(t, p, i - 1);
    }
  }

  lemma {:induction false} ContainsTrimStart(s: string, p: string)
    requires |p| > 0 && !IsJsSpace(p[0])
    ensures Contains(TrimStart(s), p) <==> Contains(s, p)
    decreases |s|
  {
    if |s| > 0 && IsJsSpace(s[0]) {
      ContainsTrimStart(s[1..], p);
      ContainsDropFirst(s, p);
    }
  }

  /** Dropping a last character that cannot end the pattern keeps `includes`. */
  lemma {:induction false} ContainsDropLast(s: string, p: string)
    requires |s| > 0 && |p| > 0 && s[|s| - 1] != p[|p| - 1]
    ensures Contains(s[..|s| - 1], p) <==> Contains(s, p)
  {
    var t := s[..|s| - 1];
    if i: nat :| OccursAt(t, p, i) {
      SliceOfSlice(s, 0, |t|, i, i + |p|);
      assert OccursAt(s, p, i);
    }
    if i: nat :| OccursAt(s, p, i) {
      assert s[i..i + |p|][|p| - 1] == s[i + |p| - 1];
      SliceOfSlice(s, 0, |t|, i, i + |p|);
      assert OccursAt(t, p, i);
    }
  }

  lemma {:induction false} ContainsTrimEnd(s: string, p: string)
    requires |p| > 0 && !IsJsSpace(p[|p| - 1])
    ensures Contains(TrimEnd(s), p) <==> Contains(s, p)
    decreases |s|
  {
    if |s| > 0 && IsJsSpace(s[|s| - 1]) {
      ContainsTrimEnd(s[..|s| - 1], p);
      ContainsDropLast(s, p);
    }
  }

  /**
    Trimming never changes whether a pattern occurs, as long as the pattern
    begins and ends with a character that is not white space.
   */
  lemma {:induction false} ContainsTrim(s: string, p: string)
    requires |p| > 0 && !IsJsSpace(p[0]) && !IsJsSpace(p[|p| - 1])
    ensures Contains(Trim(s), p) <==> Contains(s, p)
  {
    ContainsTrimEnd(TrimStart(s), p);
    ContainsTrimStart(s, p);
  }
}
