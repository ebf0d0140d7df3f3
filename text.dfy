/**
 * The .NET string operations the booking logic relies on: white-space tests
 * and trimming, lower-casing, prefix and substring tests (both compared
 * ordinally, character by character),
 * string.Replace(pattern, ""), and int.TryParse with its formatting inverse.
 */
module Text {
  import opened Domain

  /** char.IsWhiteSpace: the control white-space, the space separators and the line/paragraph separators. */
  predicate IsWhiteSpace(c: char)
  {
    ('\t' <= c <= '\r') || c == ' ' || c == '\U{85}' || c == '\U{A0}' || c == '\U{1680}'
    || ('\U{2000}' <= c <= '\U{200A}') || c == '\U{2028}' || c == '\U{2029}' || c == '\U{202F}'
    || c == '\U{205F}' || c == '\U{3000}'
  }

  /** The white space int.TryParse skips around a number (NumberStyles.Integer). */
  predicate IsNumberWhiteSpace(c: char)
  {
    ('\t' <= c <= '\r') || c == ' '
  }

  /** Drops the leading characters that satisfy `space`. */
  function TrimStartWhere(s: string, space: char -> bool): (r: string)
    ensures |r| <= |s| && r == s[|s| - |r|..]
    ensures r != [] ==> !space(r[0])
    ensures forall i :: 0 <= i < |s| - |r| ==> space(s[i])
  {
    if s != [] && space(s[0]) then TrimStartWhere(s[1..], space) else s
  }

  /** Drops the trailing characters that satisfy `space`. */
  function TrimEndWhere(s: string, space: char -> bool): (r: string)
    ensures |r| <= |s| && r == s[..|r|]
    ensures r != [] ==> !space(r[|r| - 1])
    ensures forall i :: |r| <= i < |s| ==> space(s[i])
  {
    if s != [] && space(s[|s| - 1]) then TrimEndWhere(s[..|s| - 1], space) else s
  }

  function TrimWhere(s: string, space: char -> bool): string
  {
    TrimEndWhere(TrimStartWhere(s, space), space)
  }

  /**
   * string.Length, which StringLength validation compares: the UTF-16 code
   * units, two for a character above U+FFFF (a surrogate pair).
   */
  function Utf16Length(s: string): (n: nat)
    ensures |s| <= n <= 2 * |s|
  {
    if s == [] then 0 else (if s[0] <= '\U{FFFF}' then 1 else 2) + Utf16Length(s[1..])
  }

  /** The UTF-16 length is the character count exactly when no character needs a surrogate pair. */
  lemma {:induction false} Utf16LengthOfBmp(s: string)
    ensures Utf16Length(s) == |s| <==> forall i :: 0 <= i < |s| ==> s[i] <= '\U{FFFF}'
  {
    if s != [] {
      Utf16LengthOfBmp(s[1..]);
      assert forall i :: 0 <= i < |s[1..]| ==> s[1..][i] == s[i + 1];
    }
  }

  /** string.Trim(): a piece of the string with no white space left at either end. */
  function Trim(s: string): (r: string)
    ensures |r| <= |s|
    ensures r != [] ==> !IsWhiteSpace(r[0]) && !IsWhiteSpace(r[|r| - 1])
  {
    TrimWhere(s, IsWhiteSpace)
  }

  /** string.IsNullOrWhiteSpace on a non-null string. */
  predicate IsBlank(s: string)
  {
    forall i :: 0 <= i < |s| ==> IsWhiteSpace(s[i])
  }

  /** string.IsNullOrWhiteSpace */
  predicate IsNullOrWhiteSpace(s: Option<string>)
  {
    s.None? || IsBlank(s.value)
  }

  /** string.IsNullOrEmpty */
  predicate IsNullOrEmpty(s: Option<string>)
  {
    s.None? || s.value == []
  }

  /** Trimming leaves nothing exactly when the string is blank; otherwise the result has no white space at either end. */
  lemma TrimBlank(s: string)
    ensures Trim(s) == [] <==> IsBlank(s)
    ensures Trim(s) != [] ==> !IsWhiteSpace(Trim(s)[0]) && !IsWhiteSpace(Trim(s)[|Trim(s)| - 1])
  {
    var a := TrimStartWhere(s, IsWhiteSpace);
    var b := TrimEndWhere(a, IsWhiteSpace);
    var k := |s| - |a|;
    if b == [] {
      assert a == [];
    } else {
      assert b[0] == s[k] && !IsWhiteSpace(s[k]);
    }
  }

  /** The trimmed string is a piece of the original. */
  lemma TrimInfix(s: string)
    ensures exists k :: OccursAt(s, Trim(s), k)
  {
    var a := TrimStartWhere(s, IsWhiteSpace);
    assert OccursAt(s, Trim(s), |s| - |a|);
  }

  /** The null-or-blank-to-null, otherwise trim rule applied to ServiceType, Notes and customer names. */
  function NullIfBlankElseTrim(s: Option<string>): (r: Option<string>)
    ensures r.None? <==> IsNullOrWhiteSpace(s)
    ensures r.Some? ==> r.value != [] && !IsWhiteSpace(r.value[0]) && !IsWhiteSpace(r.value[|r.value| - 1])
  {
    if IsNullOrWhiteSpace(s) then None
    else
      TrimBlank(s.value);
      Some(Trim(s.value))
  }

  /**
   * Simple (one character to one character) lower-casing over Basic Latin,
   * Latin-1 and Latin Extended-A, as the invariant culture does it: the
   * capitals A-Z and U+00C0-U+00DE (except the multiplication sign) move up
   * by 0x20, the capital/small pairs of Latin Extended-A (among them the
   * Turkish G with breve and S with cedilla) map to their small letter, the
   * capital I with dot above becomes 'i' and Y with diaeresis becomes U+00FF.
   * Every other character is kept.
   */
  function ToLowerChar(c: char): (r: char)
    ensures IsWhiteSpace(r) == IsWhiteSpace(c)
    ensures IsAsciiDigit(r) == IsAsciiDigit(c)
  {
    if 'A' <= c <= 'Z' || ('\U{C0}' <= c <= '\U{DE}' && c != '\U{D7}') then (c as int + 32) as char
    else if c == '\U{130}' then 'i'
    else if c == '\U{178}' then '\U{FF}'
    else if ('\U{100}' <= c <= '\U{137}' || '\U{14A}' <= c <= '\U{177}') && c as int % 2 == 0 then (c as int + 1) as char
    else if ('\U{139}' <= c <= '\U{148}' || '\U{179}' <= c <= '\U{17E}') && c as int % 2 == 1 then (c as int + 1) as char
    else c
  }

  /** string.ToLower(), character by character. */
  function ToLower(s: string): (r: string)
    ensures |r| == |s|
    ensures forall i :: 0 <= i < |s| ==> r[i] == ToLowerChar(s[i])
  {
    seq(|s|, i requires 0 <= i < |s| => ToLowerChar(s[i]))
  }

  /**
   * string.StartsWith(prefix), compared ordinally: the one-argument overload
   * compares under the current culture, which the model does not capture.
   */
  function StartsWith(s: string, prefix: string): (b: bool)
    ensures b <==> |prefix| <= |s| && forall i :: 0 <= i < |prefix| ==> s[i] == prefix[i]
  {
    |prefix| <= |s| && s[..|prefix|] == prefix
  }

  /** `part` occurs in `s` starting at index `i`. */
  predicate OccursAt(s: string, part: string, i: int)
  {
    0 <= i <= |s| - |part| && s[i..i + |part|] == part
  }

  /** Ordinal string.Contains: the empty string occurs in every string, a prefix in particular. */
  function Contains(s: string, part: string): (b: bool)
    ensures b ==> |part| <= |s|
    ensures StartsWith(s, part) ==> b
  {
    assert StartsWith(s, part) ==> OccursAt(s, part, 0);
    exists i | 0 <= i <= |s| - |part| :: OccursAt(s, part, i)
  }

  /** string.Replace(pattern, ""): every non-overlapping occurrence, scanned left to right, is removed. */
  function RemoveAll(s: string, pattern: string): (r: string)
    requires pattern != []
    ensures |r| <= |s|
    ensures multiset(r) <= multiset(s)
    decreases |s|
  {
    if |s| < |pattern| then s
    else if s[..|pattern|] == pattern then
      assert s == s[..|pattern|] + s[|pattern|..];
      RemoveAll(s[|pattern|..], pattern)
    else
      assert s == [s[0]] + s[1..];
      [s[0]] + RemoveAll(s[1..], pattern)
  }

  /** A string none of whose characters is `c` has no occurrence of a pattern holding `c`, so Replace leaves it alone. */
  lemma {:induction false} RemoveAllAbsent(s: string, pattern: string, c: char)
    requires pattern != [] && c in pattern && c !in s
    ensures RemoveAll(s, pattern) == s
    decreases |s|
  {
    if |s| >= |pattern| {
      var j :| 0 <= j < |pattern| && pattern[j] == c;
      assert s[..|pattern|][j] == s[j] != pattern[j];
      RemoveAllAbsent(s[1..], pattern, c);
      assert [s[0]] + s[1..] == s;
    }
  }

  /** Replace removes a leading occurrence of the pattern. */
  lemma RemoveAllPrefix(pattern: string, s: string)
    requires pattern != []
    ensures RemoveAll(pattern + s, pattern) == RemoveAll(s, pattern)
  {
    assert (pattern + s)[..|pattern|] == pattern;
    assert (pattern + s)[|pattern|..] == s;
  }

  predicate IsAsciiDigit(c: char)
  {
    '0' <= c <= '9'
  }

  predicate AllDigits(s: string)
  {
    forall i :: 0 <= i < |s| ==> IsAsciiDigit(s[i])
  }

  function DigitValue(c: char): int
    requires IsAsciiDigit(c)
  {
    c as int - '0' as int
  }

  function DigitChar(d: int): (c: char)
    requires 0 <= d < 10
    ensures IsAsciiDigit(c) && DigitValue(c) == d
  {
    ('0' as int + d) as char
  }

  /** The number a string of decimal digits denotes. */
  function DigitsValue(s: string): (n: nat)
    requires AllDigits(s)
  {
    if s == [] then 0 else DigitsValue(s[..|s| - 1]) * 10 + DigitValue(s[|s| - 1])
  }

  /** Decimal rendering of a natural number, without leading zeros. */
  function NatToString(n: nat): (s: string)
    ensures s != [] && AllDigits(s)
  {
    if n < 10 then [DigitChar(n)] else NatToString(n / 10) + [DigitChar(n % 10)]
  }

  /** Decimal rendering of an integer as string interpolation produces it: a minus sign exactly for a negative number. */
  function IntToString(n: int): (s: string)
    ensures s != [] && (s[0] == '-' <==> n < 0)
    ensures AllDigits(s[1..])
  {
    if n < 0 then "-" + NatToString(-n) else NatToString(n)
  }

  lemma {:induction false} NatToStringValue(n: nat)
    ensures DigitsValue(NatToString(n)) == n
  {
    if n >= 10 {
      var s := NatToString(n);
      NatToStringValue(n / 10);
      assert s[..|s| - 1] == NatToString(n / 10);
    }
  }

  const Int32Min: int := -2147483648
  const Int32Max: int := 2147483647

  /** int.TryParse with NumberStyles.Integer: optional surrounding white space, an optional sign, decimal digits, within Int32. */
  function ParseInt32(s: string): (r: Option<int>)
    ensures r.Some? ==> Int32Min <= r.value <= Int32Max
  {
    var t := TrimWhere(s, IsNumberWhiteSpace);
    if t == [] then None
    else
      var negative := t[0] == '-';
      var digits := if t[0] == '-' || t[0] == '+' then t[1..] else t;
      if digits == [] || !AllDigits(digits) then None
      else
        var v: int := if negative then -(DigitsValue(digits) as int) else DigitsValue(digits);
        if Int32Min <= v <= Int32Max then Some(v) else None
  }

  /** A string whose two ends are not white space trims to itself. */
  lemma TrimKeepsSolidEnds(s: string, space: char -> bool)
    requires s != [] && !space(s[0]) && !space(s[|s| - 1])
    ensures TrimWhere(s, space) == s
  {
    assert TrimStartWhere(s, space) == s;
  }

  /** Reading back what IntToString wrote gives the number again, for every Int32 value. */
  lemma ParseIntToString(n: int)
    requires Int32Min <= n <= Int32Max
    ensures ParseInt32(IntToString(n)) == Some(n)
  {
    var s := IntToString(n);
    var m: nat := if n < 0 then -n else n;
    var ds := NatToString(m);
    assert DigitsValue(ds) == m by { NatToStringValue(m); }
    assert TrimWhere(s, IsNumberWhiteSpace) == s by {
      assert IsAsciiDigit(s[|s| - 1]);
      TrimKeepsSolidEnds(s, IsNumberWhiteSpace);
    }
    if n < 0 {
      assert s[0] == '-' && s[1..] == ds;
    } else {
      assert s == ds && s[0] != '-' && s[0] != '+';
    }
  }
}
