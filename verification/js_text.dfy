/** The few pieces of JavaScript string and number semantics the chess code
    relies on: `split`, `Number(c)` of a one-character string, `parseInt`,
    and ASCII case mapping. */
module JsText {
  import opened Outcomes

  /** StrWhiteSpaceChar of ECMAScript: the characters `Number` and `parseInt`
      skip (WhiteSpace and LineTerminator). */
  predicate IsJsWhiteSpace(c: char) {
    || c == '\t' || c == '\n' || c == '\U{000B}' || c == '\U{000C}' || c == '\r'
    || c == ' ' || c == '\U{00A0}' || c == '\U{1680}'
    || ('\U{2000}' <= c <= '\U{200A}')
    || c == '\U{2028}' || c == '\U{2029}' || c == '\U{202F}' || c == '\U{205F}'
    || c == '\U{3000}' || c == '\U{FEFF}'
  }

  predicate IsDigit(c: char) {
    '0' <= c <= '9'
  }

  function DigitValue(c: char): nat
    requires IsDigit(c)
  {
    c as int - '0' as int
  }

  function DigitChar(n: nat): (c: char)
    requires n < 10
    ensures IsDigit(c) && DigitValue(c) == n
  {
    (n + '0' as int) as char
  }

  /** `Number(c)` for a string of one character: a digit is its value, a
      whitespace character is the empty numeric string and so 0, anything
      else is NaN (`None`). */
  function NumberOfChar(c: char): (r: Option<nat>)
    ensures r.Some? <==> IsDigit(c) || IsJsWhiteSpace(c)
    ensures IsDigit(c) ==> r == Some(DigitValue(c))
    ensures IsJsWhiteSpace(c) ==> r == Some(0)
  {
    if IsDigit(c) then Some(DigitValue(c))
    else if IsJsWhiteSpace(c) then Some(0)
    else None
  }

  predicate IsAsciiLower(c: char) {
    'a' <= c <= 'z'
  }

  predicate IsAsciiUpper(c: char) {
    'A' <= c <= 'Z'
  }

  /** `toUpperCase` restricted to ASCII letters. */
  function ToUpper(c: char): (r: char)
    ensures IsAsciiLower(c) ==> IsAsciiUpper(r) && r as int + 32 == c as int
    ensures !IsAsciiLower(c) ==> r == c
  {
    if IsAsciiLower(c) then (c as int - 32) as char else c
  }

  /** `toLowerCase` / `toLocaleLowerCase` restricted to ASCII letters. */
  function ToLower(c: char): (r: char)
    ensures IsAsciiUpper(c) ==> IsAsciiLower(r) && r as int == c as int + 32
    ensures !IsAsciiUpper(c) ==> r == c
  {
    if IsAsciiUpper(c) then (c as int + 32) as char else c
  }

  /** `s.split(sep)` for a one-character separator: the pieces between
      separators, empty pieces included; never an empty list. */
  function Split(s: string, sep: char): (parts: seq<string>)
    ensures |parts| >= 1
  {
    if |s| == 0 then [[]]
    else
      var rest := Split(s[1..], sep);
      if s[0] == sep then [[]] + rest else [[s[0]] + rest[0]] + rest[1..]
  }

  lemma {:induction false} SplitPiecesLackSeparator(s: string, sep: char)
    ensures forall i :: 0 <= i < |Split(s, sep)| ==> sep !in Split(s, sep)[i]
    decreases |s|
  {
    if |s| > 0 {
      SplitPiecesLackSeparator(s[1..], sep);
      var rest := Split(s[1..], sep);
      if s[0] != sep {
        assert Split(s, sep)[1..] == rest[1..];
      }
    }
  }

  /** `parts.join(sep)`: the inverse of `Split`. */
  function Join(parts: seq<string>, sep: char): string
    requires |parts| >= 1
  {
    if |parts| == 1 then parts[0] else parts[0] + [sep] + Join(parts[1..], sep)
  }

  lemma {:induction false} SplitWithoutSeparator(s: string, sep: char)
    requires sep !in s
    ensures Split(s, sep) == [s]
    decreases |s|
  {
    if |s| > 0 {
      SplitWithoutSeparator(s[1..], sep);
      assert [s[0]] + s[1..] == s;
    }
  }

  lemma {:induction false} SplitAtFirstSeparator(a: string, sep: char, b: string)
    requires sep !in a
    ensures Split(a + [sep] + b, sep) == [a] + Split(b, sep)
    decreases |a|
  {
    if |a| == 0 {
      assert (a + [sep] + b)[1..] == b;
    } else {
      assert (a + [sep] + b)[1..] == a[1..] + [sep] + b;
      SplitAtFirstSeparator(a[1..], sep, b);
      assert [a[0]] + a[1..] == a;
    }
  }

  /** Splitting a joined list gives the list back when no piece holds the
      separator. */
  lemma {:induction false} SplitJoin(parts: seq<string>, sep: char)
    requires |parts| >= 1
    requires forall i :: 0 <= i < |parts| ==> sep !in parts[i]
    ensures Split(Join(parts, sep), sep) == parts
    decreases |parts|
  {
    if |parts| == 1 {
      SplitWithoutSeparator(parts[0], sep);
    } else {
      SplitJoin(parts[1..], sep);
      SplitAtFirstSeparator(parts[0], sep, Join(parts[1..], sep));
    }
  }

  /** `SplitJoin` stated for a string already known to be a join; proofs
      about a fixed literal go through this form. */
  lemma SplitOfJoined(s: string, parts: seq<string>, sep: char)
    requires |parts| >= 1 && s == Join(parts, sep)
    requires forall i :: 0 <= i < |parts| ==> sep !in parts[i]
    ensures Split(s, sep) == parts
  {
    SplitJoin(parts, sep);
  }

  /** Joining the pieces of a split gives the string back. */
  lemma {:induction false} JoinSplit(s: string, sep: char)
    ensures Join(Split(s, sep), sep) == s
    decreases |s|
  {
    if |s| > 0 {
      JoinSplit(s[1..], sep);
      var rest := Split(s[1..], sep);
      if s[0] == sep {
        assert Split(s, sep)[1..] == rest;
      } else {
        var parts := Split(s, sep);
        assert parts[1..] == rest[1..];
        if |rest| == 1 {
          assert [s[0]] + s[1..] == s;
        } else {
          assert Join(parts, sep) == [s[0]] + rest[0] + [sep] + Join(rest[1..], sep);
          assert [s[0]] + s[1..] == s;
        }
      }
    }
  }

  /** The value of a run of decimal digits. */
  function DecimalValue(ds: string): nat
    requires forall i :: 0 <= i < |ds| ==> IsDigit(ds[i])
  {
    if |ds| == 0 then 0 else DecimalValue(ds[..|ds| - 1]) * 10 + DigitValue(ds[|ds| - 1])
  }

  /** Length of the longest prefix of `s` made of digits. */
  function DigitRun(s: string): (n: nat)
    ensures n <= |s|
    ensures forall i :: 0 <= i < n ==> IsDigit(s[i])
    ensures n < |s| ==> !IsDigit(s[n])
  {
    if |s| == 0 || !IsDigit(s[0]) then 0 else 1 + DigitRun(s[1..])
  }

  function SkipWhiteSpace(s: string): (t: string)
    ensures |t| <= |s|
    ensures |t| > 0 ==> !IsJsWhiteSpace(t[0])
  {
    if |s| > 0 && IsJsWhiteSpace(s[0]) then SkipWhiteSpace(s[1..]) else s
  }

  /** `parseInt(s)` with the default radix, for decimal text: leading
      whitespace is skipped, one sign is read, then the longest run of digits;
      no digit at all is NaN (`None`). */
  function ParseInt(s: string): (r: Option<int>)
  {
    var t := SkipWhiteSpace(s);
    var negative := |t| > 0 && t[0] == '-';
    var u := if |t| > 0 && (t[0] == '-' || t[0] == '+') then t[1..] else t;
    var n := DigitRun(u);
    var magnitude: int := if n == 0 then 0 else DecimalValue(u[..n]);
    if n == 0 then None
    else if negative then Some(-magnitude)
    else Some(magnitude)
  }

  /** Text with no digit is `NaN`. */
  lemma ParseIntNeedsDigit(s: string)
    requires forall k :: 0 <= k < |s| ==> !IsDigit(s[k])
    ensures ParseInt(s).None?
  {
    var t := SkipWhiteSpace(s);
    SkipWhiteSpaceSuffix(s);
    var u := if |t| > 0 && (t[0] == '-' || t[0] == '+') then t[1..] else t;
    if |u| > 0 {
      assert u[0] == s[|s| - |u|];
    }
  }

  /** A negative result needs a `-` in the text. */
  lemma ParseIntNegative(s: string)
    ensures ParseInt(s).Some? && ParseInt(s).value < 0 ==> '-' in s
  {
    var t := SkipWhiteSpace(s);
    SkipWhiteSpaceSuffix(s);
    if |t| > 0 {
      assert t[0] == s[|s| - |t|];
    }
  }

  /** Text made only of digits reads as their decimal value. */
  lemma ParseIntOfDigits(s: string)
    requires |s| > 0 && forall k :: 0 <= k < |s| ==> IsDigit(s[k])
    ensures ParseInt(s) == Some(DecimalValue(s))
  {
    assert IsDigit(s[0]);
    assert !IsJsWhiteSpace(s[0]);
    assert SkipWhiteSpace(s) == s;
    assert s[0] != '-' && s[0] != '+';
    assert DigitRun(s) == |s|;
    assert s[..|s|] == s;
  }

  /** Skipping white space drops a prefix. */
  lemma {:induction false} SkipWhiteSpaceSuffix(s: string)
    ensures SkipWhiteSpace(s) == s[|s| - |SkipWhiteSpace(s)|..]
  {
    if |s| > 0 && IsJsWhiteSpace(s[0]) {
      SkipWhiteSpaceSuffix(s[1..]);
    }
  }

  /** A split has one more piece than the string has separators. */
  lemma {:induction false} SplitCount(s: string, sep: char)
    ensures |Split(s, sep)| == multiset(s)[sep] + 1
    decreases |s|
  {
    if |s| > 0 {
      SplitCount(s[1..], sep);
      assert s == [s[0]] + s[1..];
    }
  }

  lemma ParseIntOfDigit(c: char)
    requires IsDigit(c)
    ensures ParseInt([c]) == Some(DigitValue(c))
  {
    assert SkipWhiteSpace([c]) == [c];
    assert DigitRun([c]) == 1;
    assert [c][..1] == [c];
    assert DecimalValue([c]) == DecimalValue([]) * 10 + DigitValue(c);
  }
}
