/**
 * The string operations the screens rely on, stated the way JavaScript
 * performs them: `split`, `includes`, `toLowerCase` / `toUpperCase` on
 * ASCII letters, `padStart(2, "0")`, decimal printing of numbers, string
 * length in UTF-16 code units, and the `Number(text)` conversion.
 */
module Text {

  // ---------------------------------------------------------------------
  // String.prototype.split with a one-character separator
  // ---------------------------------------------------------------------

  /** `s.split(sep)`: the pieces between occurrences of `sep`; "" gives [""]. */
  function Split(s: string, sep: char): (parts: seq<string>)
    ensures |parts| >= 1
    ensures forall k :: 0 <= k < |parts| ==> sep !in parts[k]
    decreases |s|
  {
    if s == [] then [""]
    else
      var rest := Split(s[1..], sep);
      if s[0] == sep then [""] + rest
      else [[s[0]] + rest[0]] + rest[1..]
  }

  /** `parts.join(sep)`: the inverse of Split. */
  function Join(parts: seq<string>, sep: char): string
    requires |parts| >= 1
    decreases |parts|
  {
    if |parts| == 1 then parts[0] else parts[0] + [sep] + Join(parts[1..], sep)
  }

  /** Joining the pieces of a split gives back the original string. */
  lemma {:induction false} JoinSplit(s: string, sep: char)
    ensures Join(Split(s, sep), sep) == s
    decreases |s|
  {
    if s != [] {
      JoinSplit(s[1..], sep);
      var rest := Split(s[1..], sep);
      if s[0] == sep {
        assert Split(s, sep)[1..] == rest;
      } else {
        var parts := Split(s, sep);
        if |rest| == 1 {
          assert parts == [[s[0]] + rest[0]];
        } else {
          assert parts[1..] == rest[1..];
          assert Join(parts, sep) == [s[0]] + (rest[0] + [sep] + Join(rest[1..], sep));
        }
      }
    }
  }

  /** A string without the separator splits into itself alone. */
  lemma {:induction false} SplitWithoutSeparator(s: string, sep: char)
    requires sep !in s
    ensures Split(s, sep) == [s]
    decreases |s|
  {
    if s != [] {
      assert sep !in s[1..];
      SplitWithoutSeparator(s[1..], sep);
      assert [s[0]] + s[1..] == s;
    }
  }

  /** Splitting at a separator splits each side independently. */
  lemma {:induction false} SplitAround(a: string, sep: char, b: string)
    ensures Split(a + [sep] + b, sep) == Split(a, sep) + Split(b, sep)
    decreases |a|
  {
    var s := a + [sep] + b;
    if a == [] {
      assert s[1..] == b;
    } else {
      assert s[1..] == a[1..] + [sep] + b;
      SplitAround(a[1..], sep, b);
    }
  }

  /** The piece at index `k` of `s.split(sep)`, or "" where JavaScript gives
      `undefined` (every use in the source only tests it for truthiness or
      compares it with a non-empty literal). */
  function Piece(s: string, sep: char, k: nat): (p: string)
    ensures sep !in p
  {
    var parts := Split(s, sep);
    if k < |parts| then parts[k] else ""
  }

  // ---------------------------------------------------------------------
  // includes, case mapping
  // ---------------------------------------------------------------------

  /** `s.includes(sub)`. */
  predicate Contains(s: string, sub: string) {
    exists i :: 0 <= i <= |s| - |sub| && IsPrefixAt(sub, s, i)
  }

  predicate IsPrefixAt(sub: string, s: string, i: int)
    requires 0 <= i <= |s| - |sub|
  {
    s[i..i + |sub|] == sub
  }

  /** Every string includes the empty string. */
  lemma ContainsEmpty(s: string)
    ensures Contains(s, "")
  {
    assert IsPrefixAt("", s, 0);
  }

  /** The ASCII letters `first`..`last` moved by `offset` onto the other
      case; every other character is kept. */
  function MapLetters(c: char, first: char, last: char, offset: int): (d: char)
    requires first <= last && 0 <= first as int + offset && last as int + offset < 128
    ensures first <= c <= last ==> d as int == c as int + offset
    ensures !(first <= c <= last) ==> d == c
  {
    if first <= c <= last then (c as int + offset) as char else c
  }

  /** The distance from an upper-case ASCII letter to its lower-case one. */
  const CaseOffset: int := 'a' as int - 'A' as int

  /** `toLowerCase` on one character. */
  function LowerChar(c: char): (d: char)
    ensures 'A' <= c <= 'Z' ==> 'a' <= d <= 'z'
    ensures !('A' <= c <= 'Z') ==> d == c
  {
    MapLetters(c, 'A', 'Z', CaseOffset)
  }

  /** `toUpperCase` on one character. */
  function UpperChar(c: char): (d: char)
    ensures 'a' <= c <= 'z' ==> 'A' <= d <= 'Z'
    ensures !('a' <= c <= 'z') ==> d == c
  {
    MapLetters(c, 'a', 'z', -CaseOffset)
  }

  /** Lower- and upper-casing undo each other on letters of the other case. */
  lemma CaseRoundTrip(c: char)
    ensures 'A' <= c <= 'Z' ==> UpperChar(LowerChar(c)) == c
    ensures 'a' <= c <= 'z' ==> LowerChar(UpperChar(c)) == c
  {
  }

  /** `s.toLowerCase()` on ASCII letters; other characters are kept. */
  function Lower(s: string): (r: string)
    ensures |r| == |s|
    ensures forall i :: 0 <= i < |s| ==> r[i] == LowerChar(s[i])
  {
    seq(|s|, i requires 0 <= i < |s| => LowerChar(s[i]))
  }

  // ---------------------------------------------------------------------
  // Decimal digits, printing and padding
  // ---------------------------------------------------------------------

  predicate IsDigit(c: char) { '0' <= c <= '9' }

  predicate IsDigits(s: string) {
    forall i :: 0 <= i < |s| ==> IsDigit(s[i])
  }

  /** The value of a digit string; the empty string is 0, as `Number("")` is. */
  function DigitsValue(s: string): nat
    requires IsDigits(s)
    decreases |s|
  {
    if s == [] then 0
    else DigitsValue(s[..|s| - 1]) * 10 + (s[|s| - 1] as int - '0' as int)
  }

  function DigitChar(d: nat): (c: char)
    requires d < 10
    ensures IsDigit(c) && c as int - '0' as int == d
  {
    ('0' as int + d) as char
  }

  /** `String(n)` for a natural number: its decimal digits, no leading zero. */
  function NatToString(n: nat): (s: string)
    ensures |s| >= 1 && IsDigits(s)
    ensures |s| > 1 ==> s[0] != '0'
    decreases n
  {
    if n < 10 then [DigitChar(n)] else NatToString(n / 10) + [DigitChar(n % 10)]
  }

  /** Reading back a printed number gives the number. */
  lemma {:induction false} NatToStringValue(n: nat)
    ensures DigitsValue(NatToString(n)) == n
    decreases n
  {
    var s := NatToString(n);
    if n >= 10 {
      NatToStringValue(n / 10);
      assert s[..|s| - 1] == NatToString(n / 10);
    }
  }

  /** `String(i)` for any integer. */
  function IntToString(i: int): (s: string)
    ensures |s| >= 1
    ensures i >= 0 ==> s == NatToString(i)
  {
    if i < 0 then "-" + NatToString(-i) else NatToString(i)
  }

  /** `s.padStart(2, "0")`. */
  function Pad2(s: string): (r: string)
    ensures |r| == if |s| >= 2 then |s| else 2
    ensures r[|r| - |s|..] == s
    ensures forall i :: 0 <= i < |r| - |s| ==> r[i] == '0'
  {
    if |s| >= 2 then s else if |s| == 1 then "0" + s else "00"
  }

  /** A leading zero does not change the value of a digit string. */
  lemma {:induction false} LeadingZero(s: string)
    requires IsDigits(s)
    ensures IsDigits("0" + s) && DigitsValue("0" + s) == DigitsValue(s)
    decreases |s|
  {
    var t := "0" + s;
    if s != [] {
      assert t[..|t| - 1] == "0" + s[..|s| - 1];
      LeadingZero(s[..|s| - 1]);
    }
  }

  /** A zero-padded printed number still reads back as the number. */
  lemma PaddedValue(n: nat)
    ensures IsDigits(Pad2(NatToString(n)))
    ensures DigitsValue(Pad2(NatToString(n))) == n
  {
    NatToStringValue(n);
    if n < 10 { LeadingZero(NatToString(n)); }
  }

  /** `Pad2(String(n))` is exactly two digits for n below 100. */
  lemma PaddedLength(n: nat)
    requires n < 100
    ensures |Pad2(NatToString(n))| == 2
  {
    if n >= 10 {
      var q := n / 10;
      assert q < 10;
      assert NatToString(q) == [DigitChar(q)];
      assert NatToString(n) == NatToString(q) + [DigitChar(n % 10)];
      assert |NatToString(n)| == 2;
    } else {
      assert |NatToString(n)| == 1;
    }
  }

  /** Equal two-digit renderings come from equal numbers. */
  lemma PaddedInjective(a: nat, b: nat)
    requires Pad2(NatToString(a)) == Pad2(NatToString(b))
    ensures a == b
  {
    PaddedValue(a);
    PaddedValue(b);
  }

  // ---------------------------------------------------------------------
  // String length as JavaScript counts it
  // ---------------------------------------------------------------------

  /** `s.length`: UTF-16 code units, so a character beyond U+FFFF counts 2. */
  function Utf16Length(s: string): (n: nat)
    ensures |s| <= n <= 2 * |s|
    decreases |s|
  {
    if s == [] then 0
    else (if s[0] as int >= 0x1_0000 then 2 else 1) + Utf16Length(s[1..])
  }

  // ---------------------------------------------------------------------
  // Number(text)
  // ---------------------------------------------------------------------

  /** A JavaScript number as it arises from the texts the models convert:
      a non-negative integer, or NaN. */
  datatype Num = Val(n: nat) | NaN

  /** A character that may appear in some text `Number` accepts: digits,
      signs, the decimal point, the exponent and radix-prefix letters, the
      hexadecimal digits and the letters of "Infinity". */
  predicate NumericLiteralChar(c: char) {
    IsDigit(c) || c in "+-.abcdefABCDEFxXoOInity"
  }

  /** A printable ASCII character no numeric literal contains: a text that
      holds one converts to NaN. */
  predicate NeverNumeric(c: char) {
    '!' <= c <= '~' && !NumericLiteralChar(c)
  }

  /** The texts whose `Number(text)` this model states exactly: digit-only
      text (including "", which is 0), and text holding a character no
      numeric literal contains (NaN). */
  predicate NumberModelled(s: string) {
    IsDigits(s) || exists i :: 0 <= i < |s| && NeverNumeric(s[i])
  }

  /** `Number(text)`. */
  function JsNumber(s: string): (r: Num)
    requires NumberModelled(s)
    ensures r.Val? <==> IsDigits(s)
    ensures r.Val? ==> r.n == DigitsValue(s)
  {
    if IsDigits(s) then Val(DigitsValue(s)) else NaN
  }

  /** `String(x)` for a Num. */
  function NumText(x: Num): (s: string)
    ensures x.NaN? ==> s == "NaN"
    ensures x.Val? ==> IsDigits(s) && DigitsValue(s) == x.n
  {
    match x
    case Val(n) => NatToStringValue(n); NatToString(n)
    case NaN => "NaN"
  }

  /** Printing a natural number and converting it back is the identity. */
  lemma JsNumberOfPrinted(n: nat)
    ensures NumberModelled(NatToString(n)) && JsNumber(NatToString(n)) == Val(n)
    ensures NumberModelled(Pad2(NatToString(n))) && JsNumber(Pad2(NatToString(n))) == Val(n)
  {
    NatToStringValue(n);
    PaddedValue(n);
  }
}
