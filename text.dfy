/** Python string operations used by the crawler and the description generator,
    on `string` = `seq<char>`: `in`, `startswith`, `lower`, `strip`, `split`,
    `join`, and the ASCII digit handling of `re.sub(r"[^0-9]", "", s)`. */
module Text {

  /** `s.startswith(p)` */
  predicate StartsWith(s: string, p: string) {
    |p| <= |s| && s[..|p|] == p
  }

  /** Python's `sub in s`: some suffix of `s` starts with `sub`. */
  predicate Contains(s: string, sub: string)
    decreases |s|
  {
    StartsWith(s, sub) || (|s| > 0 && Contains(s[1..], sub))
  }

  /** `Contains` agrees with the positional reading "sub occurs at some index of s". */
  lemma {:induction false} ContainsIff(s: string, sub: string)
    ensures Contains(s, sub) <==> exists i :: 0 <= i <= |s| && StartsWith(s[i..], sub)
    decreases |s|
  {
    assert s[0..] == s;
    if |s| > 0 {
      ContainsIff(s[1..], sub);
      if Contains(s[1..], sub) {
        var i :| 0 <= i <= |s[1..]| && StartsWith(s[1..][i..], sub);
        assert s[1..][i..] == s[i + 1..];
      }
      if exists i :: 0 <= i <= |s| && StartsWith(s[i..], sub) {
        var i :| 0 <= i <= |s| && StartsWith(s[i..], sub);
        if i > 0 {
          assert s[1..][i - 1..] == s[i..];
        }
      }
    }
  }

  /** A string that occurs in a part of a larger string occurs in the larger string. */
  lemma ContainsInSlice(s: string, lo: nat, hi: nat, sub: string)
    requires lo <= hi <= |s|
    requires Contains(s[lo..hi], sub)
    ensures Contains(s, sub)
  {
    ContainsIff(s[lo..hi], sub);
    var i :| 0 <= i <= hi - lo && StartsWith(s[lo..hi][i..], sub);
    assert s[lo..hi][i..] == s[lo + i..hi];
    assert s[lo + i..][..|sub|] == s[lo + i..hi][..|sub|];
    ContainsIff(s, sub);
  }

  /** `str.lower()` restricted to ASCII letters. */
  function LowerChar(c: char): char {
    if 'A' <= c <= 'Z' then (c as int + 32) as char else c
  }

  function Lower(s: string): string {
    seq(|s|, i requires 0 <= i < |s| => LowerChar(s[i]))
  }

  /** The characters Python's `str.strip()` removes (`str.isspace()`). */
  predicate IsSpace(c: char) {
    var n := c as int;
    n == 0x20 || 0x09 <= n <= 0x0D || 0x1C <= n <= 0x1F || n == 0x85 || n == 0xA0
    || n == 0x1680 || 0x2000 <= n <= 0x200A || n == 0x2028 || n == 0x2029
    || n == 0x202F || n == 0x205F || n == 0x3000
  }

  function TrimStart(s: string): string {
    if |s| > 0 && IsSpace(s[0]) then TrimStart(s[1..]) else s
  }

  function TrimEnd(s: string): string {
    if |s| > 0 && IsSpace(s[|s| - 1]) then TrimEnd(s[..|s| - 1]) else s
  }

  /** `s.strip()` */
  function Strip(s: string): string {
    TrimEnd(TrimStart(s))
  }

  /** A string is stripped when it neither starts nor ends with whitespace. */
  predicate IsStripped(s: string) {
    |s| > 0 ==> !IsSpace(s[0]) && !IsSpace(s[|s| - 1])
  }

  lemma {:induction false} TrimStartSuffix(s: string)
    ensures |TrimStart(s)| <= |s| && TrimStart(s) == s[|s| - |TrimStart(s)|..]
    ensures |TrimStart(s)| > 0 ==> !IsSpace(TrimStart(s)[0])
    ensures forall i :: 0 <= i < |s| - |TrimStart(s)| ==> IsSpace(s[i])
  {
    if |s| > 0 && IsSpace(s[0]) {
      TrimStartSuffix(s[1..]);
    }
  }

  lemma {:induction false} TrimEndPrefix(s: string)
    ensures |TrimEnd(s)| <= |s| && TrimEnd(s) == s[..|TrimEnd(s)|]
    ensures |TrimEnd(s)| > 0 ==> !IsSpace(TrimEnd(s)[|TrimEnd(s)| - 1])
    ensures forall i :: |TrimEnd(s)| <= i < |s| ==> IsSpace(s[i])
  {
    if |s| > 0 && IsSpace(s[|s| - 1]) {
      TrimEndPrefix(s[..|s| - 1]);
      assert s[..|s| - 1][..|TrimEnd(s)|] == s[..|TrimEnd(s)|];
    }
  }

  lemma {:induction false} TrimEndKeepsFirst(s: string)
    requires |s| > 0 && !IsSpace(s[0])
    ensures |TrimEnd(s)| > 0 && TrimEnd(s)[0] == s[0]
  {
    if IsSpace(s[|s| - 1]) {
      assert |s| > 1;
      TrimEndKeepsFirst(s[..|s| - 1]);
    }
  }

  /** `strip()` removes exactly leading and trailing whitespace: its result is
      stripped, and stripping a stripped string changes nothing. */
  lemma StripIsStripped(s: string)
    ensures IsStripped(Strip(s))
    ensures IsStripped(s) ==> Strip(s) == s
  {
    TrimStartSuffix(s);
    var t := TrimStart(s);
    TrimEndPrefix(t);
    if |TrimEnd(t)| > 0 {
      TrimEndKeepsFirst(t);
    }
    if IsStripped(s) {
      assert TrimStart(s) == s;
      if |s| > 0 {
        assert TrimEnd(s) == s;
      }
    }
  }

  /** Leading whitespace never survives `strip()`. */
  lemma {:induction false} StripSkipsLeadingSpace(c: char, s: string)
    requires IsSpace(c)
    ensures Strip([c] + s) == Strip(s)
  {
    assert ([c] + s)[1..] == s;
  }

  /** `s.split(sep)` for a one-character separator: the pieces between
      separators, one more piece than there are separators. */
  function Split(s: string, sep: char): (parts: seq<string>)
    ensures |parts| > 0
    ensures forall k :: 0 <= k < |parts| ==> sep !in parts[k]
  {
    if |s| == 0 then [""]
    else if s[0] == sep then [""] + Split(s[1..], sep)
    else
      var rest := Split(s[1..], sep);
      [[s[0]] + rest[0]] + rest[1..]
  }

  /** `sep.join(parts)` */
  function Join(parts: seq<string>, sep: string): string {
    if |parts| == 0 then ""
    else if |parts| == 1 then parts[0]
    else parts[0] + sep + Join(parts[1..], sep)
  }

  /** A string without the separator is one piece. */
  lemma {:induction false} SplitNoSeparator(s: string, sep: char)
    requires sep !in s
    ensures Split(s, sep) == [s]
  {
    if |s| > 0 {
      assert sep !in s[1..];
      SplitNoSeparator(s[1..], sep);
      assert [s[0]] + s[1..] == s;
    }
  }

  /** Splitting at the first separator: the piece before it, then the pieces of the rest. */
  lemma {:induction false} SplitAtFirst(a: string, sep: char, b: string)
    requires sep !in a
    ensures Split(a + [sep] + b, sep) == [a] + Split(b, sep)
  {
    if |a| == 0 {
      assert a + [sep] + b == [sep] + b;
      assert ([sep] + b)[1..] == b;
    } else {
      assert (a + [sep] + b)[1..] == a[1..] + [sep] + b;
      assert sep !in a[1..];
      SplitAtFirst(a[1..], sep, b);
      assert [a[0]] + a[1..] == a;
    }
  }

  /** Split and join are inverse: joining the pieces of `s` with the separator gives `s` back. */
  lemma {:induction false} JoinSplit(s: string, sep: char)
    ensures Join(Split(s, sep), [sep]) == s
  {
    if |s| > 0 {
      JoinSplit(s[1..], sep);
      var rest := Split(s[1..], sep);
      if s[0] == sep {
        assert Split(s, sep) == [""] + rest;
        assert ([""] + rest)[1..] == rest;
        assert [sep] + s[1..] == s;
      } else {
        var parts := [[s[0]] + rest[0]] + rest[1..];
        assert Split(s, sep) == parts;
        if |rest| == 1 {
          assert Join(rest, [sep]) == rest[0];
        } else {
          assert parts[1..] == rest[1..];
          assert Join(rest, [sep]) == rest[0] + [sep] + Join(rest[1..], [sep]);
        }
        assert [s[0]] + s[1..] == s;
      }
    }
  }

  predicate IsDigit(c: char) {
    '0' <= c <= '9'
  }

  predicate AllDigits(s: string) {
    forall i :: 0 <= i < |s| ==> IsDigit(s[i])
  }

  function DigitValue(c: char): nat
    requires IsDigit(c)
  {
    c as int - '0' as int
  }

  function DigitChar(d: nat): char
    requires d < 10
  {
    ('0' as int + d) as char
  }

  /** `re.sub(r"[^0-9]", "", s)`: the ASCII digits of `s`, in order. */
  function Digits(s: string): (d: string)
    ensures AllDigits(d)
    ensures |d| <= |s|
  {
    if |s| == 0 then ""
    else (if IsDigit(s[0]) then [s[0]] else "") + Digits(s[1..])
  }

  /** The digit filter reads one character at a time. */
  lemma DigitsCons(c: char, s: string)
    ensures Digits([c] + s) == (if IsDigit(c) then [c] else "") + Digits(s)
  {
    assert ([c] + s)[1..] == s;
  }

  /** Nothing survives the digit filter exactly when `s` holds no digit. */
  lemma {:induction false} DigitsEmptyIff(s: string)
    ensures Digits(s) == "" <==> forall i :: 0 <= i < |s| ==> !IsDigit(s[i])
  {
    if |s| > 0 {
      DigitsEmptyIff(s[1..]);
      assert forall i :: 1 <= i < |s| ==> s[i] == s[1..][i - 1];
    }
  }

  /** A digit string is left unchanged by the digit filter. */
  lemma {:induction false} DigitsOfDigits(s: string)
    requires AllDigits(s)
    ensures Digits(s) == s
  {
    if |s| > 0 {
      DigitsOfDigits(s[1..]);
      assert [s[0]] + s[1..] == s;
    }
  }

  /** `int(d)` for a string of ASCII digits. */
  function DecimalValue(d: string): nat
    requires AllDigits(d)
  {
    if |d| == 0 then 0 else DecimalValue(d[..|d| - 1]) * 10 + DigitValue(d[|d| - 1])
  }

  /** `str(n)` for a natural number. */
  function NatToString(n: nat): (s: string)
    ensures |s| > 0 && AllDigits(s)
    ensures n > 0 ==> s[0] != '0'
  {
    if n < 10 then [DigitChar(n)] else NatToString(n / 10) + [DigitChar(n % 10)]
  }

  /** `int(str(n)) == n` */
  lemma {:induction false} DecimalRoundTrip(n: nat)
    ensures DecimalValue(NatToString(n)) == n
  {
    if n >= 10 {
      DecimalRoundTrip(n / 10);
      var s := NatToString(n);
      assert s[..|s| - 1] == NatToString(n / 10);
    }
  }

  /** `str` is injective on natural numbers: distinct numbers print differently. */
  lemma NatToStringInjective(m: nat, n: nat)
    requires NatToString(m) == NatToString(n)
    ensures m == n
  {
    DecimalRoundTrip(m);
    DecimalRoundTrip(n);
  }
}
