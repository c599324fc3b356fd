/**
 * The string primitives of the Java and JavaScript runtimes that the modelled code
 * relies on: decimal formatting and parsing, ASCII case mapping, substring search,
 * trimming, splitting and joining. Strings are sequences of Unicode scalar values.
 */
module Strings {
  import opened Wrappers

  // ---------------------------------------------------------------------------
  // Decimal digits
  // ---------------------------------------------------------------------------

  /** An ASCII decimal digit (JavaScript's `\d`, and the digits this model lets
      Java's `Integer.parseInt` accept). */
  predicate IsDigit(c: char) {
    '0' <= c <= '9'
  }

  predicate AllDigits(s: string) {
    forall i :: 0 <= i < |s| ==> IsDigit(s[i])
  }

  function DigitValue(c: char): nat
    requires IsDigit(c)
  {
    c as int - '0' as int
  }

  function DigitChar(d: nat): (c: char)
    requires d < 10
    ensures IsDigit(c) && DigitValue(c) == d
  {
    ('0' as int + d) as char
  }

  /** The number a string of decimal digits denotes, most significant digit first. */
  function DigitsValue(s: string): nat
    requires AllDigits(s)
  {
    if s == [] then 0 else 10 * DigitsValue(s[..|s| - 1]) + DigitValue(s[|s| - 1])
  }

  /** The shortest decimal notation of a natural number. */
  function NatDigits(n: nat): (s: string)
    ensures |s| > 0 && AllDigits(s)
  {
    if n < 10 then [DigitChar(n)] else NatDigits(n / 10) + [DigitChar(n % 10)]
  }

  lemma {:induction false} NatDigitsValue(n: nat)
    ensures DigitsValue(NatDigits(n)) == n
  {
    if n >= 10 {
      NatDigitsValue(n / 10);
      var s := NatDigits(n);
      assert s[..|s| - 1] == NatDigits(n / 10);
    }
  }

  /** Java's `Integer.toString(n)`: a minus sign for a negative number, then the ASCII
      digits of its magnitude. `%d` prints the same under a default locale whose digits
      are the ASCII ones. */
  function DecimalString(n: int): (s: string)
    ensures n >= 0 ==> AllDigits(s) && |s| > 0
    ensures n < 0 ==> |s| > 1 && s[0] == '-' && AllDigits(s[1..])
  {
    if n < 0 then "-" + NatDigits(-n) else NatDigits(n)
  }

  // ---------------------------------------------------------------------------
  // Java's 32-bit int and Integer.parseInt
  // ---------------------------------------------------------------------------

  const MinInt: int := -0x8000_0000
  const MaxInt: int := 0x7fff_ffff

  predicate IsInt32(n: int) {
    MinInt <= n <= MaxInt
  }

  /** Java's `Integer.parseInt(s)` in radix 10: an optional `+` or `-`, then one or more
      digits, denoting a value in the 32-bit range. Anything else raises
      NumberFormatException, which is `None` here. */
  function ParseInt(s: string): (r: Option<int>)
    ensures r.Some? ==> IsInt32(r.value)
    ensures r.Some? ==> |s| > 0 && (s[0] == '-' || s[0] == '+' || IsDigit(s[0]))
    ensures r.Some? ==> AllDigits(s[1..]) && (|s| == 1 ==> IsDigit(s[0]))
  {
    if |s| == 0 then None
    else
      var body := if s[0] == '-' || s[0] == '+' then s[1..] else s;
      if |body| == 0 || !AllDigits(body) then None
      else
        var magnitude: int := DigitsValue(body);
        var v := if s[0] == '-' then -magnitude else magnitude;
        if IsInt32(v) then Some(v) else None
  }

  /** The value `parseInt` gives well-formed text: the digits' value, negated after a
      minus sign, when it fits in 32 bits; out of range it throws. */
  lemma ParseIntValue(sign: string, digits: string)
    requires sign == "" || sign == "+" || sign == "-"
    requires digits != [] && AllDigits(digits)
    ensures var v := if sign == "-" then -(DigitsValue(digits) as int) else DigitsValue(digits);
      ParseInt(sign + digits) == if IsInt32(v) then Some(v) else None
  {
    var s := sign + digits;
    if sign == "" {
      assert s == digits;
    } else {
      assert s[0] == sign[0] && s[1..] == digits;
    }
  }

  /** Parsing what `Integer.toString` printed gives the number back when it is a 32-bit
      value, and fails otherwise. */
  lemma ParseDecimalString(n: int)
    ensures ParseInt(DecimalString(n)) == if IsInt32(n) then Some(n) else None
  {
    if n < 0 {
      NatDigitsValue(-n);
      ParseIntValue("-", NatDigits(-n));
    } else {
      NatDigitsValue(n);
      ParseIntValue("", NatDigits(n));
      assert "" + NatDigits(n) == NatDigits(n);
    }
  }

  /** A leading `+` and leading zeros are accepted. */
  lemma ParseIntAccepts()
    ensures ParseInt("+7") == Some(7) && ParseInt("007") == Some(7) && ParseInt("-0") == Some(0)
  {
    SignedDigit("+", '7');
    SignedDigit("-", '0');
    LeadingZeros();
  }

  lemma SignedDigit(sign: string, c: char)
    requires sign == "+" || sign == "-"
    requires IsDigit(c)
    ensures ParseInt(sign + [c]) == Some(if sign == "-" then -(DigitValue(c) as int) else DigitValue(c))
  {
    assert [c][..0] == [];
    ParseIntValue(sign, [c]);
  }

  lemma LeadingZeros()
    ensures ParseInt("007") == Some(7)
  {
    assert DigitsValue("007") == 7 by {
      assert "007"[..2] == "00" && "00"[..1] == "0" && "0"[..0] == "";
    }
    ParseIntValue("", "007");
    assert "" + "007" == "007";
  }

  /** The text of 2^31, of a number below -2^31, a lone sign, the empty text and text
      with a space inside are rejected. */
  lemma ParseIntRejects()
    ensures ParseInt(DecimalString(MaxInt + 1)).None? && ParseInt(DecimalString(MinInt - 1)).None?
    ensures ParseInt("-").None? && ParseInt("").None? && ParseInt("1 2").None?
  {
    ParseDecimalString(MaxInt + 1);
    ParseDecimalString(MinInt - 1);
    assert "1 2"[1] == ' ';
  }

  // ---------------------------------------------------------------------------
  // ASCII case mapping and substring search
  // ---------------------------------------------------------------------------

  function LowerChar(c: char): char {
    if 'A' <= c <= 'Z' then (c as int + 32) as char else c
  }

  function UpperChar(c: char): char {
    if 'a' <= c <= 'z' then (c as int - 32) as char else c
  }

  /** `toLowerCase()`, restricted to the ASCII letters. */
  function ToLower(s: string): (r: string)
    ensures |r| == |s| && forall i :: 0 <= i < |s| ==> r[i] == LowerChar(s[i])
  {
    if s == [] then [] else [LowerChar(s[0])] + ToLower(s[1..])
  }

  /** `toUpperCase()`, restricted to the ASCII letters. */
  function ToUpper(s: string): (r: string)
    ensures |r| == |s| && forall i :: 0 <= i < |s| ==> r[i] == UpperChar(s[i])
  {
    if s == [] then [] else [UpperChar(s[0])] + ToUpper(s[1..])
  }

  /** `sub` occurs in `s` at position `i`. */
  predicate OccursAt(s: string, sub: string, i: int) {
    0 <= i <= |s| - |sub| && s[i..i + |sub|] == sub
  }

  /** `s.contains(sub)`: `sub` occurs in `s` at some position. */
  predicate Contains(s: string, sub: string) {
    exists i :: 0 <= i <= |s| - |sub| && OccursAt(s, sub, i)
  }

  predicate StartsWith(s: string, prefix: string) {
    |prefix| <= |s| && s[..|prefix|] == prefix
  }

  /** `s.indexOf(c)`: the first position of `c` in `s`, or -1. */
  function IndexOf(s: string, c: char): (r: int)
    ensures -1 <= r < |s|
    ensures r == -1 <==> c !in s
    ensures r >= 0 ==> s[r] == c && c !in s[..r]
  {
    if s == [] then -1
    else if s[0] == c then 0
    else
      var k := IndexOf(s[1..], c);
      assert s[1..][..if k < 0 then 0 else k] == s[1..if k < 0 then 1 else k + 1];
      if k == -1 then -1 else k + 1
  }

  // ---------------------------------------------------------------------------
  // Trimming
  // ---------------------------------------------------------------------------

  /** What Java's `String.trim()` removes: every character up to U+0020. */
  predicate IsJavaSpace(c: char) {
    c <= ' '
  }

  /** What JavaScript's `String.prototype.trim()` removes: the ECMAScript WhiteSpace
      characters (tab, vertical tab, form feed, the space separators, the byte order
      mark) and LineTerminators (LF, CR, U+2028, U+2029). */
  predicate IsJsSpace(c: char) {
    || c == '\t' || c == '\n' || c == '\U{000B}' || c == '\U{000C}' || c == '\r'
    || c == ' ' || c == '\U{00A0}' || c == '\U{1680}'
    || ('\U{2000}' <= c <= '\U{200A}')
    || c == '\U{2028}' || c == '\U{2029}' || c == '\U{202F}' || c == '\U{205F}'
    || c == '\U{3000}' || c == '\U{FEFF}'
  }

  function DropLeading(s: string, space: char -> bool): (r: string)
    ensures |r| <= |s| && r == s[|s| - |r|..]
    ensures r == [] || !space(r[0])
    ensures forall k :: 0 <= k < |s| - |r| ==> space(s[k])
  {
    if s != [] && space(s[0]) then DropLeading(s[1..], space) else s
  }

  function DropTrailing(s: string, space: char -> bool): (r: string)
    ensures |r| <= |s| && r == s[..|r|]
    ensures r == [] || !space(r[|r| - 1])
    ensures forall k :: |r| <= k < |s| ==> space(s[k])
  {
    if s != [] && space(s[|s| - 1]) then DropTrailing(s[..|s| - 1], space) else s
  }

  /** `r` is the stretch of `s` that starts at `i`, with only space before it and only
      space after it. */
  predicate Surrounds(s: string, r: string, i: int, space: char -> bool) {
    && 0 <= i <= |s| - |r| && r == s[i..i + |r|]
    && (forall k :: 0 <= k < i ==> space(s[k]))
    && (forall k :: i + |r| <= k < |s| ==> space(s[k]))
  }

  /** Removes the `space` characters at both ends: what is left is a stretch of `s`
      with only space around it, and it neither starts nor ends with space. */
  function Trim(s: string, space: char -> bool): (r: string)
    ensures |r| <= |s|
    ensures r == [] || (!space(r[0]) && !space(r[|r| - 1]))
    ensures exists i :: Surrounds(s, r, i, space)
  {
    DropBothSurrounds(s, space);
    DropTrailing(DropLeading(s, space), space)
  }

  lemma DropBothSurrounds(s: string, space: char -> bool)
    ensures var d := DropLeading(s, space);
      Surrounds(s, DropTrailing(d, space), |s| - |d|, space)
  {
    var d := DropLeading(s, space);
    var r := DropTrailing(d, space);
    assert d == s[|s| - |d|..] && r == d[..|r|];
    StretchSurrounded(s, d, r, space);
  }

  /** A prefix `r` of a suffix `d` of `s`, with space before `d` and after `r`. */
  lemma StretchSurrounded(s: string, d: string, r: string, space: char -> bool)
    requires |d| <= |s| && d == s[|s| - |d|..]
    requires |r| <= |d| && r == d[..|r|]
    requires forall k :: 0 <= k < |s| - |d| ==> space(s[k])
    requires forall k :: |r| <= k < |d| ==> space(d[k])
    ensures Surrounds(s, r, |s| - |d|, space)
  {
    var i := |s| - |d|;
    forall k | i + |r| <= k < |s| ensures space(s[k]) {
      assert s[k] == d[k - i];
    }
  }

  function JavaTrim(s: string): string {
    Trim(s, IsJavaSpace)
  }

  function JsTrim(s: string): string {
    Trim(s, IsJsSpace)
  }

  /** A string whose two ends are not space is its own trim, also after more space
      has been appended: a `line + "\n"` trims back to `line`. */
  lemma TrimAppendedSpace(s: string, tail: string, space: char -> bool)
    requires s != [] && !space(s[0]) && !space(s[|s| - 1])
    requires forall k :: 0 <= k < |tail| ==> space(tail[k])
    ensures Trim(s + tail, space) == s
  {
    assert DropLeading(s + tail, space) == s + tail;
    DropTrailingSpace(s, tail, space);
  }

  lemma {:induction false} DropTrailingSpace(s: string, tail: string, space: char -> bool)
    requires s != [] && !space(s[|s| - 1])
    requires forall k :: 0 <= k < |tail| ==> space(tail[k])
    ensures DropTrailing(s + tail, space) == s
  {
    if tail == [] {
      assert s + tail == s;
    } else {
      var t := tail[..|tail| - 1];
      assert (s + tail)[..|s + tail| - 1] == s + t;
      DropTrailingSpace(s, t, space);
    }
  }

  /** One more space character at the end does not change the trim: in particular a
      text that ends in `"\n"` trims to the trim of the text without it. */
  lemma TrimAppendOneSpace(s: string, c: char, space: char -> bool)
    requires space(c)
    ensures Trim(s + [c], space) == Trim(s, space)
  {
    DropLeadingAppendSpace(s, c, space);
    var d := DropLeading(s, space);
    if d == [] {
      assert DropLeading(s + [c], space) == [];
    } else {
      assert DropLeading(s + [c], space) == d + [c];
      DropTrailingOneSpace(d, c, space);
    }
  }

  lemma DropTrailingOneSpace(s: string, c: char, space: char -> bool)
    requires space(c)
    ensures DropTrailing(s + [c], space) == DropTrailing(s, space)
  {
    var e := s + [c];
    assert e != [] && space(e[|e| - 1]);
    assert e[..|e| - 1] == s;
  }

  lemma {:induction false} DropLeadingAppendSpace(s: string, c: char, space: char -> bool)
    requires space(c)
    ensures DropLeading(s + [c], space) == if DropLeading(s, space) == [] then [] else DropLeading(s, space) + [c]
  {
    var t := s + [c];
    if s == [] {
      assert t[1..] == [];
    } else if space(s[0]) {
      assert t[0] == s[0];
      assert t[1..] == s[1..] + [c];
      assert DropLeading(t, space) == DropLeading(s[1..] + [c], space);
      assert DropLeading(s, space) == DropLeading(s[1..], space);
      DropLeadingAppendSpace(s[1..], c, space);
    } else {
      assert t[0] == s[0];
    }
  }

  /** Space on both sides of a string whose two ends are not space trims away:
      `"  search\n"` trims to `"search"`. */
  lemma TrimSurrounded(lead: string, s: string, tail: string, space: char -> bool)
    requires s != [] && !space(s[0]) && !space(s[|s| - 1])
    requires forall k :: 0 <= k < |lead| ==> space(lead[k])
    requires forall k :: 0 <= k < |tail| ==> space(tail[k])
    ensures Trim(lead + (s + tail), space) == s
  {
    DropLeadingSpace(lead, s + tail, space);
    DropTrailingSpace(s, tail, space);
  }

  lemma {:induction false} DropLeadingSpace(lead: string, t: string, space: char -> bool)
    requires t == [] || !space(t[0])
    requires forall k :: 0 <= k < |lead| ==> space(lead[k])
    ensures DropLeading(lead + t, space) == t
  {
    if lead == [] {
      assert lead + t == t;
    } else {
      assert (lead + t)[0] == lead[0];
      assert (lead + t)[1..] == lead[1..] + t;
      DropLeadingSpace(lead[1..], t, space);
    }
  }

  lemma TrimIdempotent(s: string, space: char -> bool)
    ensures Trim(Trim(s, space), space) == Trim(s, space)
  {
    var t := Trim(s, space);
    if t != [] {
      TrimAppendedSpace(t, [], space);
      assert t + [] == t;
    }
  }

  // ---------------------------------------------------------------------------
  // Splitting and joining
  // ---------------------------------------------------------------------------

  /** Every piece between two occurrences of `sep`, empty pieces included; this is
      JavaScript's `s.split(sep)` for a one-character separator. */
  function SplitOn(s: string, sep: char): (parts: seq<string>)
    ensures |parts| >= 1
    ensures forall i :: 0 <= i < |parts| ==> sep !in parts[i]
  {
    if s == [] then [""]
    else
      var rest := SplitOn(s[1..], sep);
      if s[0] == sep then [""] + rest else [[s[0]] + rest[0]] + rest[1..]
  }

  /** The pieces with one `sep` between neighbours (Java's `Collectors.joining`). */
  function Join(parts: seq<string>, sep: char): string {
    if |parts| == 0 then ""
    else if |parts| == 1 then parts[0]
    else parts[0] + [sep] + Join(parts[1..], sep)
  }

  lemma {:induction false} JoinSplitOn(s: string, sep: char)
    ensures Join(SplitOn(s, sep), sep) == s
  {
    if s != [] {
      JoinSplitOn(s[1..], sep);
      var rest := SplitOn(s[1..], sep);
      if s[0] == sep {
        assert Join([""] + rest, sep) == "" + [sep] + Join(rest, sep);
      } else if |rest| == 1 {
        assert Join([[s[0]] + rest[0]], sep) == [s[0]] + rest[0];
      } else {
        calc {
          Join([[s[0]] + rest[0]] + rest[1..], sep);
          ([s[0]] + rest[0]) + [sep] + Join(rest[1..], sep);
          [s[0]] + (rest[0] + [sep] + Join(rest[1..], sep));
          [s[0]] + Join(rest, sep);
        }
        assert s == [s[0]] + s[1..];
      }
    }
  }

  lemma {:induction false} SplitOnPiece(a: string, sep: char)
    requires sep !in a
    ensures SplitOn(a, sep) == [a]
  {
    if a != [] {
      SplitOnPiece(a[1..], sep);
      assert [a[0]] + a[1..] == a;
    }
  }

  lemma {:induction false} SplitOnPrefix(a: string, t: string, sep: char)
    requires sep !in a
    ensures SplitOn(a + [sep] + t, sep) == [a] + SplitOn(t, sep)
  {
    if a == [] {
      assert a + [sep] + t == [sep] + t;
      assert ([sep] + t)[1..] == t;
    } else {
      SplitOnPrefix(a[1..], t, sep);
      assert (a + [sep] + t)[1..] == a[1..] + [sep] + t;
      assert [a[0]] + a[1..] == a;
    }
  }

  /** Splitting undoes joining, when no piece holds the separator. */
  lemma {:induction false} SplitOnJoin(parts: seq<string>, sep: char)
    requires |parts| >= 1
    requires forall i :: 0 <= i < |parts| ==> sep !in parts[i]
    ensures SplitOn(Join(parts, sep), sep) == parts
  {
    if |parts| == 1 {
      SplitOnPiece(parts[0], sep);
    } else {
      SplitOnJoin(parts[1..], sep);
      SplitOnPrefix(parts[0], Join(parts[1..], sep), sep);
      assert [parts[0]] + parts[1..] == parts;
    }
  }

  function DropTrailingEmpty(parts: seq<string>): (r: seq<string>)
    ensures |r| <= |parts| && r == parts[..|r|]
    ensures r == [] || r[|r| - 1] != ""
    ensures forall k :: |r| <= k < |parts| ==> parts[k] == ""
  {
    if parts != [] && parts[|parts| - 1] == "" then DropTrailingEmpty(parts[..|parts| - 1])
    else parts
  }

  /** Java's `s.split(",")` for a one-character, non-regex separator: with no
      occurrence the whole string is the single field; otherwise every piece,
      with the trailing empty pieces removed. */
  function JavaSplit(s: string, sep: char): (r: seq<string>)
    ensures sep !in s ==> r == [s]
    ensures forall i :: 0 <= i < |r| ==> sep !in r[i]
  {
    if sep !in s then [s] else DropTrailingEmpty(SplitOn(s, sep))
  }

  /** Joined pieces split back into the same pieces when none holds the separator
      and the last one is not empty. */
  lemma JavaSplitJoin(parts: seq<string>, sep: char)
    requires |parts| >= 2
    requires forall i :: 0 <= i < |parts| ==> sep !in parts[i]
    requires parts[|parts| - 1] != ""
    ensures JavaSplit(Join(parts, sep), sep) == parts
  {
    var s := Join(parts, sep);
    SplitOnJoin(parts, sep);
    assert s == parts[0] + [sep] + Join(parts[1..], sep);
    assert s[|parts[0]|] == sep;
  }
}
