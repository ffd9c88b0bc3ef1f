/**
 * The fragments of Python's string handling the model relies on: `str.strip()`,
 * `str.split(',')`, `int(s)` on a decimal string and `str(n)` on an integer.
 * Whitespace is Python's full `str.isspace()` set; decimal digits are the ASCII ones only.
 */
module Text {
  import opened Wrappers

  /**
   * The characters for which Python's `str.isspace()` holds: the ASCII controls tab to
   * carriage return and the four information separators, plus the Unicode space separators,
   * next line, and the line and paragraph separators.
   */
  predicate IsSpace(c: char) {
    if c < '\U{80}' then c == ' ' || ('\t' <= c <= '\r') || ('\U{1c}' <= c <= '\U{1f}')
    else IsWideSpace(c)
  }

  /** The non-ASCII part of the `str.isspace()` set. */
  predicate IsWideSpace(c: char) {
    || c == '\U{85}' || c == '\U{a0}' || c == '\U{1680}'
    || ('\U{2000}' <= c <= '\U{200a}') || c == '\U{2028}' || c == '\U{2029}'
    || c == '\U{202f}' || c == '\U{205f}' || c == '\U{3000}'
  }

  predicate IsDigit(c: char) {
    '0' <= c <= '9'
  }

  function DigitValue(c: char): (d: int)
    requires IsDigit(c)
    ensures 0 <= d < 10
  {
    c as int - '0' as int
  }

  function DigitChar(d: int): (c: char)
    requires 0 <= d < 10
    ensures IsDigit(c) && DigitValue(c) == d
  {
    ('0' as int + d) as char
  }

  /** Removes leading whitespace. */
  function TrimStart(s: string): (r: string)
    ensures |r| <= |s| && r == s[|s| - |r|..]
    ensures |r| == 0 || !IsSpace(r[0])
    ensures forall i :: 0 <= i < |s| - |r| ==> IsSpace(s[i])
  {
    if |s| > 0 && IsSpace(s[0]) then TrimStart(s[1..]) else s
  }

  /** Removes trailing whitespace. */
  function TrimEnd(s: string): (r: string)
    ensures |r| <= |s| && r == s[..|r|]
    ensures |r| == 0 || !IsSpace(r[|r| - 1])
    ensures forall i :: |r| <= i < |s| ==> IsSpace(s[i])
  {
    if |s| > 0 && IsSpace(s[|s| - 1]) then TrimEnd(s[..|s| - 1]) else s
  }

  /** Python's `s.strip()`: the longest infix with no whitespace at either end. */
  function Strip(s: string): (r: string)
    ensures |r| == 0 || (!IsSpace(r[0]) && !IsSpace(r[|r| - 1]))
    ensures exists i, j :: && 0 <= i <= j <= |s| && r == s[i..j]
                           && (forall k :: 0 <= k < i ==> IsSpace(s[k]))
                           && (forall k :: j <= k < |s| ==> IsSpace(s[k]))
    ensures |s| == 0 || (!IsSpace(s[0]) && !IsSpace(s[|s| - 1])) ==> r == s
  {
    var t := TrimStart(s);
    var r := TrimEnd(t);
    var i := |s| - |t|;
    assert r == s[i..i + |r|];
    r
  }

  /** Number of occurrences of `c` in `s`. */
  function Count(s: string, c: char): nat {
    if |s| == 0 then 0 else (if s[0] == c then 1 else 0) + Count(s[1..], c)
  }

  /** The parts after the first, each preceded by the separator. */
  function JoinTail(parts: seq<string>, sep: char): string {
    if |parts| == 0 then "" else [sep] + parts[0] + JoinTail(parts[1..], sep)
  }

  /** Python's `sep.join(parts)`. */
  function Join(parts: seq<string>, sep: char): string
    requires |parts| > 0
  {
    parts[0] + JoinTail(parts[1..], sep)
  }

  /**
   * Python's `s.split(sep)` for a one-character separator: separator-free parts that join
   * back into `s`, one more than there are separators.
   */
  function Split(s: string, sep: char): (parts: seq<string>)
    ensures |parts| == Count(s, sep) + 1
    ensures forall i :: 0 <= i < |parts| ==> sep !in parts[i]
    ensures Join(parts, sep) == s
  {
    if |s| == 0 then [""]
    else if s[0] == sep then
      var rest := Split(s[1..], sep);
      assert Join([""] + rest, sep) == [sep] + Join(rest, sep) by {
        assert ([""] + rest)[1..] == rest;
        assert rest == [rest[0]] + rest[1..];
      }
      assert [sep] + s[1..] == s;
      [""] + rest
    else
      var rest := Split(s[1..], sep);
      var parts := [[s[0]] + rest[0]] + rest[1..];
      assert Join(parts, sep) == [s[0]] + Join(rest, sep) by {
        assert parts[1..] == rest[1..];
      }
      assert [s[0]] + s[1..] == s;
      parts
  }

  lemma {:induction false} SplitWithoutSeparator(s: string, sep: char)
    requires sep !in s
    ensures Split(s, sep) == [s]
  {
    if |s| > 0 {
      SplitWithoutSeparator(s[1..], sep);
      assert [s[0]] + s[1..] == s;
    }
  }

  /** Joining two separator-free strings with the separator splits back into the two strings. */
  lemma {:induction false} SplitPair(a: string, b: string, sep: char)
    requires sep !in a && sep !in b
    ensures Split(a + [sep] + b, sep) == [a, b]
  {
    if |a| == 0 {
      assert a + [sep] + b == [sep] + b;
      assert ([sep] + b)[1..] == b;
      SplitWithoutSeparator(b, sep);
    } else {
      assert (a + [sep] + b)[1..] == a[1..] + [sep] + b;
      SplitPair(a[1..], b, sep);
      assert [a[0]] + a[1..] == a;
    }
  }

  /**
   * The digit run Python's `int()` accepts after an optional sign: non-empty, made of digits
   * and single underscores, starting and ending with a digit.
   */
  predicate ValidDigits(s: string) {
    && |s| > 0
    && IsDigit(s[0])
    && IsDigit(s[|s| - 1])
    && (forall i :: 0 <= i < |s| ==> IsDigit(s[i]) || s[i] == '_')
    && (forall i :: 0 <= i < |s| - 1 ==> s[i] == '_' ==> s[i + 1] != '_')
  }

  /** `s` with its underscores dropped. */
  function DropUnderscores(s: string): (r: string)
    ensures forall i :: 0 <= i < |r| ==> r[i] != '_' && r[i] in s
  {
    if |s| == 0 then ""
    else (if s[0] == '_' then "" else [s[0]]) + DropUnderscores(s[1..])
  }

  lemma {:induction false} DropUnderscoresKeepsDigits(s: string)
    requires forall i :: 0 <= i < |s| ==> IsDigit(s[i]) || s[i] == '_'
    ensures forall i :: 0 <= i < |DropUnderscores(s)| ==> IsDigit(DropUnderscores(s)[i])
  {
    var r := DropUnderscores(s);
    forall i | 0 <= i < |r|
      ensures IsDigit(r[i])
    {
      assert r[i] in s && r[i] != '_';
    }
  }

  lemma {:induction false} DropUnderscoresNoop(s: string)
    requires '_' !in s
    ensures DropUnderscores(s) == s
  {
    if |s| > 0 {
      DropUnderscoresNoop(s[1..]);
      assert [s[0]] + s[1..] == s;
    }
  }

  /** The value of a string of decimal digits, most significant first. */
  function DigitsValue(ds: string): (n: nat)
    requires forall i :: 0 <= i < |ds| ==> IsDigit(ds[i])
  {
    if |ds| == 0 then 0 else DigitsValue(ds[..|ds| - 1]) * 10 + DigitValue(ds[|ds| - 1])
  }

  function Magnitude(s: string): nat
    requires ValidDigits(s)
  {
    DropUnderscoresKeepsDigits(s);
    DigitsValue(DropUnderscores(s))
  }

  /** Python's `int(s)` in base 10: `None` where it raises `ValueError`. */
  function ParseInt(s: string): (r: Option<int>)
    ensures r.Some? ==> |Strip(s)| > 0
  {
    ParseStripped(Strip(s))
  }

  /** `int()` on a string without surrounding whitespace: an optional sign, then a digit run. */
  function ParseStripped(t: string): (r: Option<int>)
    ensures r.Some? ==> |t| > 0
  {
    if |t| == 0 then None
    else if t[0] == '-' || t[0] == '+' then
      if ValidDigits(t[1..]) then
        var m: int := Magnitude(t[1..]);
        Some(if t[0] == '-' then -m else m)
      else None
    else if ValidDigits(t) then Some(Magnitude(t))
    else None
  }

  /** Python's `str(n)` for a natural number. */
  function NatToString(n: nat): (s: string)
    ensures |s| > 0
    ensures forall i :: 0 <= i < |s| ==> IsDigit(s[i])
  {
    if n < 10 then [DigitChar(n)] else NatToString(n / 10) + [DigitChar(n % 10)]
  }

  /** Python's `str(n)` for an integer. */
  function IntToString(n: int): (s: string)
    ensures |s| > 0 && IsDigit(s[|s| - 1])
    ensures forall i :: 0 <= i < |s| ==> IsDigit(s[i]) || (i == 0 && s[i] == '-')
  {
    if n < 0 then "-" + NatToString(-n) else NatToString(n)
  }

  lemma {:induction false} NatToStringValue(n: nat)
    ensures DigitsValue(NatToString(n)) == n
  {
    if n >= 10 {
      NatToStringValue(n / 10);
      var s := NatToString(n);
      assert s[..|s| - 1] == NatToString(n / 10);
    }
  }

  /** The printed form of a natural number is a valid digit run worth that number. */
  lemma NatToStringParses(m: nat)
    ensures ValidDigits(NatToString(m))
    ensures Magnitude(NatToString(m)) == m
  {
    var ds := NatToString(m);
    assert '_' !in ds;
    DropUnderscoresNoop(ds);
    NatToStringValue(m);
  }

  /** A bare digit run reads as its magnitude. */
  lemma ParseUnsigned(s: string)
    requires ValidDigits(s)
    ensures ParseInt(s) == Some(Magnitude(s))
  {
    assert !IsSpace(s[0]) && !IsSpace(s[|s| - 1]);
    assert Strip(s) == s;
  }

  /** A minus sign followed by a digit run reads as the negated magnitude. */
  lemma ParseNegative(ds: string)
    requires ValidDigits(ds)
    ensures ParseInt("-" + ds) == Some(-(Magnitude(ds) as int))
  {
    var s := "-" + ds;
    assert s[1..] == ds;
    assert s[|s| - 1] == ds[|ds| - 1];
    assert !IsSpace(s[0]) && !IsSpace(s[|s| - 1]);
    assert Strip(s) == s;
    assert ParseStripped(s) == Some(-(Magnitude(ds) as int));
  }

  /** `int(str(n)) == n`. */
  lemma {:induction false} ParseIntRoundTrip(n: int)
    ensures ParseInt(IntToString(n)) == Some(n)
  {
    var ds := NatToString(if n < 0 then -n else n);
    NatToStringParses(if n < 0 then -n else n);
    if n < 0 {
      assert IntToString(n) == "-" + ds;
      ParseNegative(ds);
    } else {
      assert IntToString(n) == ds;
      ParseUnsigned(ds);
    }
  }

  /** Distinct naturals print differently. */
  lemma NatToStringInjective(a: nat, b: nat)
    requires NatToString(a) == NatToString(b)
    ensures a == b
  {
    NatToStringValue(a);
    NatToStringValue(b);
  }
}
