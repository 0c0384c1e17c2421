/** The string operations the scripts rely on: Python's `str.strip()` (used to
    normalise column headers) and the decimal rendering of integers in
    f-strings (used in every bin label). */
module Text {
  import opened Results

  /** Python's `str.isspace()`: the characters `str.strip()` removes. */
  predicate IsSpace(c: char)
  {
    || ('\t' <= c <= '\r')
    || ('\U{1c}' <= c <= ' ')
    || c == '\U{85}' || c == '\U{a0}' || c == '\U{1680}'
    || ('\U{2000}' <= c <= '\U{200a}')
    || c == '\U{2028}' || c == '\U{2029}' || c == '\U{202f}' || c == '\U{205f}' || c == '\U{3000}'
  }

  /** Drops leading whitespace: the result is a suffix of `s`. */
  function TrimStart(s: string): (r: string)
    ensures |r| <= |s| && r == s[|s| - |r|..]
  {
    if s != [] && IsSpace(s[0]) then TrimStart(s[1..]) else s
  }

  /** Drops trailing whitespace: the result is a prefix of `s`. */
  function TrimEnd(s: string): (r: string)
    ensures |r| <= |s| && r == s[..|r|]
  {
    if s != [] && IsSpace(s[|s| - 1]) then TrimEnd(s[..|s| - 1]) else s
  }

  /** `TrimStart` keeps the longest suffix that does not start with whitespace. */
  lemma {:induction false} TrimStartSpaces(s: string)
    ensures forall i :: 0 <= i < |s| - |TrimStart(s)| ==> IsSpace(s[i])
    ensures TrimStart(s) != [] ==> !IsSpace(TrimStart(s)[0])
  {
    if s != [] && IsSpace(s[0]) {
      TrimStartSpaces(s[1..]);
      assert TrimStart(s) == TrimStart(s[1..]);
      forall i | 1 <= i < |s| - |TrimStart(s)| ensures IsSpace(s[i]) {
        assert s[i] == s[1..][i - 1];
      }
    }
  }

  /** `TrimEnd` keeps the longest prefix that does not end with whitespace. */
  lemma {:induction false} TrimEndSpaces(s: string)
    ensures forall i :: |TrimEnd(s)| <= i < |s| ==> IsSpace(s[i])
    ensures TrimEnd(s) != [] ==> !IsSpace(TrimEnd(s)[|TrimEnd(s)| - 1])
  {
    if s != [] && IsSpace(s[|s| - 1]) {
      var n := |s| - 1;
      TrimEndSpaces(s[..n]);
      forall i | |TrimEnd(s)| <= i < n ensures IsSpace(s[i]) {
        assert s[i] == s[..n][i];
      }
    }
  }

  /** `str.strip()`. */
  function Strip(s: string): string
  {
    TrimEnd(TrimStart(s))
  }

  /** What `str.strip()` promises: the result is a contiguous slice of the
      input, everything cut away is whitespace, and the result neither starts
      nor ends with whitespace. */
  lemma StripSpec(s: string) returns (i: nat)
    ensures var r := Strip(s);
      && i + |r| <= |s| && r == s[i..i + |r|]
      && (forall k :: 0 <= k < i ==> IsSpace(s[k]))
      && (forall k :: i + |r| <= k < |s| ==> IsSpace(s[k]))
      && (r != [] ==> !IsSpace(r[0]) && !IsSpace(r[|r| - 1]))
  {
    i := |s| - |TrimStart(s)|;
    StripSlice(s, i);
    TrimStartSpaces(s);
    StripTrailing(s, i);
    StripEnds(s);
  }

  lemma StripSlice(s: string, i: nat)
    requires i == |s| - |TrimStart(s)|
    ensures i + |Strip(s)| <= |s| && Strip(s) == s[i..i + |Strip(s)|]
  {
    var t := TrimStart(s);
    var r := TrimEnd(t);
    PrefixOfSuffix(s, i, r);
  }

  lemma StripTrailing(s: string, i: nat)
    requires i == |s| - |TrimStart(s)|
    ensures forall k :: i + |Strip(s)| <= k < |s| ==> IsSpace(s[k])
  {
    var t := TrimStart(s);
    TrimEndSpaces(t);
    SuffixTail(s, i, |TrimEnd(t)|, IsSpace);
  }

  /** What holds from position `n` on in the suffix `s[i..]` holds from
      position `i + n` on in `s`. */
  lemma SuffixTail<T>(s: seq<T>, i: nat, n: nat, p: T -> bool)
    requires i + n <= |s|
    requires forall j :: n <= j < |s| - i ==> p(s[i..][j])
    ensures forall k :: i + n <= k < |s| ==> p(s[k])
  {
    forall k | i + n <= k < |s| ensures p(s[k]) {
      assert s[k] == s[i..][k - i];
    }
  }

  lemma StripEnds(s: string)
    ensures Strip(s) != [] ==> !IsSpace(Strip(s)[0]) && !IsSpace(Strip(s)[|Strip(s)| - 1])
  {
    var t := TrimStart(s);
    var r := TrimEnd(t);
    TrimStartSpaces(s);
    TrimEndSpaces(t);
    if r != [] {
      assert r[0] == t[0];
    }
  }

  /** A prefix `r` of the suffix `s[i..]` is the slice `s[i..i + |r|]`. */
  lemma PrefixOfSuffix<T>(s: seq<T>, i: nat, r: seq<T>)
    requires i <= |s| && |r| <= |s| - i && r == s[i..][..|r|]
    ensures r == s[i..i + |r|]
  {
  }

  // ---------------------------------------------------------------------
  // Decimal rendering of integers, as Python's f"{n}" prints them.

  predicate IsDigit(c: char)
  {
    '0' <= c <= '9'
  }

  predicate AllDigits(s: string)
  {
    forall i :: 0 <= i < |s| ==> IsDigit(s[i])
  }

  function DigitChar(d: nat): (c: char)
    requires d < 10
    ensures IsDigit(c) && c as int - '0' as int == d
  {
    ('0' as int + d) as char
  }

  /** Decimal digits of `n`, most significant first, without leading zeros. */
  function NatToString(n: nat): (s: string)
    ensures |s| >= 1 && AllDigits(s)
    ensures s[0] == '0' ==> n == 0 && s == "0"
  {
    if n < 10 then [DigitChar(n)] else NatToString(n / 10) + [DigitChar(n % 10)]
  }

  /** `str(i)` for a Python int: a minus sign before the digits of a negative. */
  function IntToString(i: int): string
    decreases if i < 0 then 1 else 0
  {
    if i < 0 then "-" + IntToString(-i) else NatToString(i)
  }

  /** The value of a string of decimal digits. */
  function DigitsValue(s: string): nat
    requires AllDigits(s)
  {
    if s == [] then 0 else DigitsValue(s[..|s| - 1]) * 10 + (s[|s| - 1] as int - '0' as int)
  }

  /** Reads back what `IntToString` writes. */
  function ParseInt(s: string): Option<int>
  {
    if |s| >= 2 && s[0] == '-' && AllDigits(s[1..]) then Some(0 - DigitsValue(s[1..]))
    else if |s| >= 1 && AllDigits(s) then Some(DigitsValue(s))
    else None
  }

  lemma {:induction false} NatToStringRoundTrip(n: nat)
    ensures DigitsValue(NatToString(n)) == n
  {
    if n >= 10 {
      NatToStringRoundTrip(n / 10);
      var s := NatToString(n);
      assert s[..|s| - 1] == NatToString(n / 10);
    }
  }

  /** Every integer label component can be read back: rendering is injective. */
  lemma IntToStringRoundTrip(i: int)
    ensures ParseInt(IntToString(i)) == Some(i)
  {
    if i < 0 {
      NatToStringRoundTrip(-i);
      ParseNegative(NatToString(-i));
    } else {
      NatToStringRoundTrip(i);
      ParseDigits(NatToString(i));
    }
  }

  lemma ParseDigits(digits: string)
    requires |digits| >= 1 && AllDigits(digits)
    ensures ParseInt(digits) == Some(DigitsValue(digits))
  {
  }

  lemma ParseNegative(digits: string)
    requires |digits| >= 1 && AllDigits(digits)
    ensures ParseInt("-" + digits) == Some(0 - DigitsValue(digits))
  {
    var s := "-" + digits;
    assert s[1..] == digits;
  }

  lemma IntToStringInjective(i: int, j: int)
    requires IntToString(i) == IntToString(j)
    ensures i == j
  {
    IntToStringRoundTrip(i);
    IntToStringRoundTrip(j);
  }
}
