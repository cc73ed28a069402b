/**
 * The JavaScript (and Python) string built-ins the application relies on,
 * stated over `string` = `seq<char>`: `trim`, `split(',')`, `join(',')`,
 * `includes`, `padStart`, `String(n)` for a natural number and an ASCII-only
 * `toLowerCase`.
 */
module JsString {

  // ---------------------------------------------------------------------
  // trim
  // ---------------------------------------------------------------------

  /**
   * The characters `String.prototype.trim` removes: ECMAScript WhiteSpace
   * (tab, vertical tab, form feed, space, no-break space, byte order mark and
   * the Unicode space separators) and LineTerminator (LF, CR, LS, PS).
   */
  predicate IsJsWhitespace(c: char) {
    || c == '\t' || c == '\n' || c == '\U{000B}' || c == '\U{000C}' || c == '\r' || c == ' '
    || c == '\U{00A0}' || c == '\U{1680}' || ('\U{2000}' <= c <= '\U{200A}')
    || c == '\U{2028}' || c == '\U{2029}' || c == '\U{202F}' || c == '\U{205F}'
    || c == '\U{3000}' || c == '\U{FEFF}'
  }

  /** `s` with its leading whitespace removed. */
  function TrimStart(s: string): (r: string)
    ensures |r| <= |s|
    ensures r == [] || !IsJsWhitespace(r[0])
  {
    if s == [] || !IsJsWhitespace(s[0]) then s else TrimStart(s[1..])
  }

  /** `s` with its trailing whitespace removed. */
  function TrimEnd(s: string): (r: string)
    ensures |r| <= |s|
    ensures r == [] || !IsJsWhitespace(r[|r| - 1])
  {
    if s == [] || !IsJsWhitespace(s[|s| - 1]) then s else TrimEnd(s[..|s| - 1])
  }

  /** `trimStart` removes a prefix: what is left is a suffix of `s`. */
  lemma {:induction false} TrimStartIsSuffix(s: string)
    ensures TrimStart(s) == s[|s| - |TrimStart(s)|..]
  {
    if s != [] && IsJsWhitespace(s[0]) {
      TrimStartIsSuffix(s[1..]);
    }
  }

  /** `trimEnd` removes a suffix: what is left is a prefix of `s`. */
  lemma {:induction false} TrimEndIsPrefix(s: string)
    ensures TrimEnd(s) == s[..|TrimEnd(s)|]
  {
    if s != [] && IsJsWhitespace(s[|s| - 1]) {
      TrimEndIsPrefix(s[..|s| - 1]);
    }
  }

  /** Only whitespace is removed at the front. */
  lemma {:induction false} TrimStartRemovesOnlyWhitespace(s: string)
    ensures forall i :: 0 <= i < |s| - |TrimStart(s)| ==> IsJsWhitespace(s[i])
  {
    if s != [] && IsJsWhitespace(s[0]) {
      var t := s[1..];
      TrimStartRemovesOnlyWhitespace(t);
      assert TrimStart(s) == TrimStart(t);
      forall i | 1 <= i < |s| - |TrimStart(s)|
        ensures IsJsWhitespace(s[i])
      {
        assert s[i] == t[i - 1];
      }
    }
  }

  /** Only whitespace is removed at the back. */
  lemma {:induction false} TrimEndRemovesOnlyWhitespace(s: string)
    ensures forall i :: |TrimEnd(s)| <= i < |s| ==> IsJsWhitespace(s[i])
  {
    if s != [] && IsJsWhitespace(s[|s| - 1]) {
      var t := s[..|s| - 1];
      TrimEndRemovesOnlyWhitespace(t);
      assert TrimEnd(s) == TrimEnd(t);
      forall i | |TrimEnd(s)| <= i < |s| - 1
        ensures IsJsWhitespace(s[i])
      {
        assert s[i] == t[i];
      }
    }
  }

  /** `s.trim()`. */
  function Trim(s: string): string {
    TrimEnd(TrimStart(s))
  }

  /** A string is trimmed when it neither starts nor ends with whitespace. */
  predicate IsTrimmed(s: string) {
    s == [] || (!IsJsWhitespace(s[0]) && !IsJsWhitespace(s[|s| - 1]))
  }

  /** `trim` leaves a trimmed string alone, and its result is always trimmed. */
  lemma TrimmedFixpoint(s: string)
    ensures IsTrimmed(s) ==> Trim(s) == s
    ensures IsTrimmed(Trim(s))
  {
    var t := TrimStart(s);
    var r := TrimEnd(t);
    TrimEndIsPrefix(t);
    if r != [] {
      assert r[0] == t[0];
    }
  }

  // ---------------------------------------------------------------------
  // split and join on a one-character separator
  // ---------------------------------------------------------------------

  /** `s.split(sep)`: the maximal separator-free segments, empty ones included. */
  function Split(s: string, sep: char): (r: seq<string>)
    ensures |r| >= 1
    ensures forall i :: 0 <= i < |r| ==> sep !in r[i]
  {
    if s == [] then [""]
    else if s[0] == sep then [""] + Split(s[1..], sep)
    else
      var rest := Split(s[1..], sep);
      [[s[0]] + rest[0]] + rest[1..]
  }

  /** `parts.join(sep)`. */
  function Join(parts: seq<string>, sep: char): string {
    if |parts| == 0 then ""
    else if |parts| == 1 then parts[0]
    else parts[0] + [sep] + Join(parts[1..], sep)
  }

  /** No part contains the separator. */
  predicate SeparatorFree(parts: seq<string>, sep: char) {
    forall i :: 0 <= i < |parts| ==> sep !in parts[i]
  }

  /** A separator-free string splits into itself alone. */
  lemma {:induction false} SplitAtom(p: string, sep: char)
    requires sep !in p
    ensures Split(p, sep) == [p]
  {
    if p != [] {
      SplitAtom(p[1..], sep);
      assert [p[0]] + p[1..] == p;
    }
  }

  /** Splitting `p + sep + rest` peels off `p` when `p` holds no separator. */
  lemma {:induction false} SplitCons(p: string, sep: char, rest: string)
    requires sep !in p
    ensures Split(p + [sep] + rest, sep) == [p] + Split(rest, sep)
  {
    if p == [] {
      assert p + [sep] + rest == [sep] + rest;
      assert ([sep] + rest)[1..] == rest;
    } else {
      var s := p + [sep] + rest;
      assert s[0] == p[0];
      assert s[1..] == p[1..] + [sep] + rest;
      SplitCons(p[1..], sep, rest);
      assert [p[0]] + p[1..] == p;
    }
  }

  /** Joining and then splitting gives back the parts, when none holds the separator. */
  lemma {:induction false} SplitJoin(parts: seq<string>, sep: char)
    requires |parts| >= 1 && SeparatorFree(parts, sep)
    ensures Split(Join(parts, sep), sep) == parts
  {
    if |parts| == 1 {
      SplitAtom(parts[0], sep);
    } else {
      SplitJoin(parts[1..], sep);
      SplitCons(parts[0], sep, Join(parts[1..], sep));
      assert [parts[0]] + parts[1..] == parts;
    }
  }

  /** Splitting and then joining gives back the string. */
  lemma {:induction false} JoinSplit(s: string, sep: char)
    ensures Join(Split(s, sep), sep) == s
  {
    if s != [] {
      JoinSplit(s[1..], sep);
      var rest := Split(s[1..], sep);
      if s[0] == sep {
        assert Split(s, sep) == [""] + rest;
        assert ([""] + rest)[1..] == rest;
      } else {
        var r := [[s[0]] + rest[0]] + rest[1..];
        if |rest| == 1 {
          assert Join(r, sep) == [s[0]] + rest[0];
        } else {
          assert r[1..] == rest[1..];
          assert Join(rest, sep) == rest[0] + [sep] + Join(rest[1..], sep);
        }
        assert [s[0]] + s[1..] == s;
      }
    }
  }

  // ---------------------------------------------------------------------
  // includes
  // ---------------------------------------------------------------------

  /** `sub` occurs in `s` at position `i`. */
  predicate OccursAt(s: string, sub: string, i: int) {
    0 <= i && i + |sub| <= |s| && s[i..i + |sub|] == sub
  }

  /** `s.includes(sub)` (Python's `sub in s`). */
  function Contains(s: string, sub: string): (r: bool)
    ensures r <==> exists i :: OccursAt(s, sub, i)
  {
    if |sub| <= |s| && s[..|sub|] == sub then
      assert OccursAt(s, sub, 0);
      true
    else if |s| == 0 then
      false
    else
      var r := Contains(s[1..], sub);
      assert forall i :: OccursAt(s[1..], sub, i) <==> OccursAt(s, sub, i + 1);
      assert forall i :: OccursAt(s, sub, i) ==> i >= 1 && OccursAt(s[1..], sub, i - 1);
      r
  }

  // ---------------------------------------------------------------------
  // numbers as decimal text, padStart
  // ---------------------------------------------------------------------

  predicate IsDigit(c: char) { '0' <= c <= '9' }

  predicate AllDigits(s: string) { forall i :: 0 <= i < |s| ==> IsDigit(s[i]) }

  function DigitChar(d: nat): (c: char)
    requires d < 10
    ensures IsDigit(c)
  {
    ['0','1','2','3','4','5','6','7','8','9'][d]
  }

  function DigitValue(c: char): (d: nat)
    requires IsDigit(c)
    ensures d < 10 && DigitChar(d) == c
  {
    if c == '0' then 0 else if c == '1' then 1 else if c == '2' then 2
    else if c == '3' then 3 else if c == '4' then 4 else if c == '5' then 5
    else if c == '6' then 6 else if c == '7' then 7 else if c == '8' then 8 else 9
  }

  /** `String(n)` for a natural number: its decimal digits, no leading zero. */
  function NatToString(n: nat): (s: string)
    ensures |s| >= 1 && AllDigits(s)
    ensures |s| > 1 ==> s[0] != '0'
    ensures n < 10 <==> |s| == 1
    ensures n < 100 ==> |s| <= 2
  {
    if n < 10 then [DigitChar(n)] else NatToString(n / 10) + [DigitChar(n % 10)]
  }

  /** The number a string of decimal digits stands for (the inverse of `NatToString`). */
  function DecimalValue(s: string): nat
    requires AllDigits(s)
  {
    if s == [] then 0 else 10 * DecimalValue(s[..|s| - 1]) + DigitValue(s[|s| - 1])
  }

  lemma {:induction false} DecimalValueOfNatToString(n: nat)
    ensures DecimalValue(NatToString(n)) == n
  {
    var s := NatToString(n);
    if n >= 10 {
      DecimalValueOfNatToString(n / 10);
      assert s[..|s| - 1] == NatToString(n / 10);
    }
  }

  /** Leading zeros do not change the value of a digit string. */
  lemma {:induction false} DecimalValueLeadingZero(s: string)
    requires AllDigits(s)
    ensures AllDigits("0" + s) && DecimalValue("0" + s) == DecimalValue(s)
  {
    if s != [] {
      DecimalValueLeadingZero(s[..|s| - 1]);
      assert ("0" + s)[..|"0" + s| - 1] == "0" + s[..|s| - 1];
    }
  }

  /** `s.padStart(width, '0')`: zeros on the left up to `width`, never truncated. */
  function PadStartZeros(s: string, width: nat): (r: string)
    ensures |r| == if |s| >= width then |s| else width
    ensures r[|r| - |s|..] == s
    ensures forall i :: 0 <= i < |r| - |s| ==> r[i] == '0'
  {
    if |s| >= width then s else seq(width - |s|, i => '0') + s
  }

  /** `String(n).padStart(2, '0')`. */
  function Pad2(n: nat): (r: string)
    ensures n < 100 ==> |r| == 2
    ensures AllDigits(r) && DecimalValue(r) == n
  {
    var s := NatToString(n);
    DecimalValueOfNatToString(n);
    if |s| >= 2 then s
    else
      DecimalValueLeadingZero(s);
      assert PadStartZeros(s, 2) == "0" + s;
      PadStartZeros(s, 2)
  }

  // ---------------------------------------------------------------------
  // toLowerCase, ASCII letters only
  // ---------------------------------------------------------------------

  function LowerChar(c: char): char {
    if 'A' <= c <= 'Z' then (c as int + 32) as char else c
  }

  /** `s.toLowerCase()` restricted to the ASCII letters A-Z. */
  function ToLowerAscii(s: string): (r: string)
    ensures |r| == |s| && forall i :: 0 <= i < |s| ==> r[i] == LowerChar(s[i])
  {
    seq(|s|, i requires 0 <= i < |s| => LowerChar(s[i]))
  }
}
