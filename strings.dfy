/** The few .NET string operations the modelled code relies on, written out
    with the semantics of the .NET base library (ordinal comparison). */
module Strings {
  import opened Wrappers

  predicate StartsWith(s: string, prefix: string) {
    |prefix| <= |s| && s[..|prefix|] == prefix
  }

  /** `s.Contains(sub)`: some suffix of `s` starts with `sub`. */
  predicate Contains(s: string, sub: string)
    decreases |s|
  {
    StartsWith(s, sub) || (s != [] && Contains(s[1..], sub))
  }

  /** `String.Split(char)`: the pieces between separators, empty pieces kept. */
  function Split(s: string, sep: char): (parts: seq<string>)
    ensures |parts| >= 1
    ensures forall i :: 0 <= i < |parts| ==> sep !in parts[i]
    decreases |s|
  {
    if s == [] then [""]
    else
      var rest := Split(s[1..], sep);
      if s[0] == sep then [""] + rest
      else [[s[0]] + rest[0]] + rest[1..]
  }

  /** `String.Join(sep, parts)`. */
  function Join(parts: seq<string>, sep: string): string
    decreases |parts|
  {
    if parts == [] then ""
    else if |parts| == 1 then parts[0]
    else parts[0] + sep + Join(parts[1..], sep)
  }

  /** Joining two non-empty lists puts one separator between the two joins. */
  lemma {:induction false} JoinAppend(a: seq<string>, b: seq<string>, sep: string)
    requires a != [] && b != []
    ensures Join(a + b, sep) == Join(a, sep) + sep + Join(b, sep)
    decreases |a|
  {
    assert (a + b)[0] == a[0];
    if |a| == 1 {
      assert (a + b)[1..] == b;
    } else {
      assert (a + b)[1..] == a[1..] + b;
      JoinAppend(a[1..], b, sep);
    }
  }

  /** Concatenation of all parts (`String.Concat`). */
  function Concat(parts: seq<string>): string
    decreases |parts|
  {
    if parts == [] then "" else parts[0] + Concat(parts[1..])
  }

  /** Concatenating one more part appends it. */
  lemma {:induction false} ConcatSnoc(parts: seq<string>, last: string)
    ensures Concat(parts + [last]) == Concat(parts) + last
    decreases |parts|
  {
    if parts == [] {
      assert [last][1..] == [];
    } else {
      assert (parts + [last])[1..] == parts[1..] + [last];
      ConcatSnoc(parts[1..], last);
    }
  }

  /** Splitting and joining again with the same separator gives back the input. */
  lemma {:induction false} SplitJoin(s: string, sep: char)
    ensures Join(Split(s, sep), [sep]) == s
    decreases |s|
  {
    if s != [] {
      var rest := Split(s[1..], sep);
      SplitJoin(s[1..], sep);
      if s[0] == sep {
        assert Split(s, sep) == [""] + rest;
        assert Join([""] + rest, [sep]) == "" + [sep] + Join(rest, [sep]);
      } else if |rest| == 1 {
        assert Split(s, sep) == [[s[0]] + rest[0]];
      } else {
        var parts := Split(s, sep);
        assert parts == [[s[0]] + rest[0]] + rest[1..];
        assert parts[1..] == rest[1..];
        assert Join(rest, [sep]) == rest[0] + [sep] + Join(rest[1..], [sep]);
      }
    }
  }

  /** A string without the separator is a single piece. */
  lemma {:induction false} SplitNoSep(s: string, sep: char)
    requires sep !in s
    ensures Split(s, sep) == [s]
    decreases |s|
  {
    if s != [] {
      SplitNoSep(s[1..], sep);
      assert [s[0]] + s[1..] == s;
    }
  }

  /** With a separator in the string, the last piece is what follows one of
      its separators (the last one, as the piece holds none). */
  lemma {:induction false} SplitLastPart(s: string, sep: char)
    requires sep in s
    ensures |Split(s, sep)| >= 2
    ensures exists k :: 0 <= k < |s| && s[k] == sep && Split(s, sep)[|Split(s, sep)| - 1] == s[k + 1..]
    decreases |s|
  {
    var parts := Split(s, sep);
    var rest := Split(s[1..], sep);
    if sep !in s[1..] {
      assert s[0] == sep;
      SplitNoSep(s[1..], sep);
      assert parts == [""] + [s[1..]];
      assert parts[|parts| - 1] == s[0 + 1..];
    } else {
      SplitLastPart(s[1..], sep);
      var k :| 0 <= k < |s[1..]| && s[1..][k] == sep && rest[|rest| - 1] == s[1..][k + 1..];
      if s[0] == sep {
        assert parts == [""] + rest;
      } else {
        assert parts == [[s[0]] + rest[0]] + rest[1..];
      }
      assert parts[|parts| - 1] == rest[|rest| - 1];
      assert s[k + 1] == sep && s[1..][k + 1..] == s[k + 2..];
    }
  }

  /** Splitting distributes over a separator placed between two strings. */
  lemma {:induction false} SplitAppend(a: string, b: string, sep: char)
    ensures Split(a + [sep] + b, sep) == Split(a, sep) + Split(b, sep)
    decreases |a|
  {
    var s := a + [sep] + b;
    if a == [] {
      assert s[1..] == b;
    } else {
      assert s[1..] == a[1..] + [sep] + b;
      SplitAppend(a[1..], b, sep);
    }
  }

  /** `String.Replace(pat, rep)` for a non-empty `pat`: every non-overlapping
      occurrence, scanning left to right, is replaced. */
  function ReplaceAll(s: string, pat: string, rep: string): string
    requires pat != []
    decreases |s|
  {
    if |s| < |pat| then s
    else if StartsWith(s, pat) then rep + ReplaceAll(s[|pat|..], pat, rep)
    else [s[0]] + ReplaceAll(s[1..], pat, rep)
  }

  /** A string that does not contain the pattern is left alone. */
  lemma {:induction false} ReplaceAllAbsent(s: string, pat: string, rep: string)
    requires pat != []
    requires !Contains(s, pat)
    ensures ReplaceAll(s, pat, rep) == s
    decreases |s|
  {
    if |s| >= |pat| {
      ReplaceAllAbsent(s[1..], pat, rep);
      assert [s[0]] + s[1..] == s;
    }
  }

  /** `String.Replace(a, b)` on single characters. */
  function ReplaceChar(s: string, a: char, b: char): (r: string)
    ensures |r| == |s|
    ensures forall i :: 0 <= i < |s| ==> r[i] == if s[i] == a then b else s[i]
  {
    seq(|s|, i requires 0 <= i < |s| => if s[i] == a then b else s[i])
  }

  /** `String.Split(string[] { pat }, StringSplitOptions.None)`. */
  function SplitStr(s: string, pat: string): (parts: seq<string>)
    requires pat != []
    ensures |parts| >= 1
    ensures parts[0] <= s
    ensures forall i :: 0 <= i < |parts| ==> !Contains(parts[i], pat)
    decreases |s|
  {
    if |s| < |pat| then
      NotContainsShort(s, pat);
      [s]
    else if StartsWith(s, pat) then [""] + SplitStr(s[|pat|..], pat)
    else
      var rest := SplitStr(s[1..], pat);
      var first := [s[0]] + rest[0];
      assert !StartsWith(first, pat);
      assert first[1..] == rest[0];
      [first] + rest[1..]
  }

  lemma {:induction false} NotContainsShort(s: string, pat: string)
    requires |s| < |pat|
    ensures !Contains(s, pat)
    decreases |s|
  {
    if s != [] { NotContainsShort(s[1..], pat); }
  }

  /** Joining the pieces of a split on `pat` is exactly removing every `pat`. */
  lemma {:induction false} ConcatSplitStr(s: string, pat: string)
    requires pat != []
    ensures Concat(SplitStr(s, pat)) == ReplaceAll(s, pat, "")
    decreases |s|
  {
    if |s| < |pat| {
      assert SplitStr(s, pat) == [s];
      assert Concat([s]) == s + Concat([]);
    } else if StartsWith(s, pat) {
      ConcatSplitStr(s[|pat|..], pat);
      var rest := SplitStr(s[|pat|..], pat);
      assert SplitStr(s, pat) == [""] + rest;
      assert ([""] + rest)[1..] == rest;
    } else {
      ConcatSplitStr(s[1..], pat);
      var rest := SplitStr(s[1..], pat);
      var parts := [[s[0]] + rest[0]] + rest[1..];
      assert SplitStr(s, pat) == parts;
      assert parts[1..] == rest[1..];
      assert Concat(parts) == [s[0]] + rest[0] + Concat(rest[1..]);
      assert ReplaceAll(s, pat, "") == [s[0]] + ReplaceAll(s[1..], pat, "");
    }
  }

  /** `char.IsWhiteSpace`: the Unicode White_Space characters. */
  predicate IsWhiteSpace(c: char) {
    || ('\t' <= c <= '\r')
    || c == ' '
    || c == '\U{85}'
    || c == '\U{A0}'
    || c == '\U{1680}'
    || ('\U{2000}' <= c <= '\U{200A}')
    || c == '\U{2028}'
    || c == '\U{2029}'
    || c == '\U{202F}'
    || c == '\U{205F}'
    || c == '\U{3000}'
  }

  /** `string.IsNullOrWhiteSpace` on a non-null string. */
  predicate AllWhiteSpace(s: string) {
    forall i :: 0 <= i < |s| ==> IsWhiteSpace(s[i])
  }

  /** `String.TrimEnd()`: drops trailing white space. */
  function TrimEnd(s: string): (r: string)
    ensures r <= s
    ensures r == [] || !IsWhiteSpace(r[|r| - 1])
    ensures AllWhiteSpace(s[|r|..])
    decreases |s|
  {
    if s != [] && IsWhiteSpace(s[|s| - 1]) then
      var r := TrimEnd(s[..|s| - 1]);
      assert s[|r|..] == s[..|s| - 1][|r|..] + [s[|s| - 1]];
      r
    else s
  }

  // ----- integers -----

  predicate IsDigit(c: char) { '0' <= c <= '9' }

  predicate AllDigits(s: string) {
    forall i :: 0 <= i < |s| ==> IsDigit(s[i])
  }

  function DigitChar(d: nat): (c: char)
    requires d < 10
    ensures IsDigit(c)
  {
    ('0' as int + d) as char
  }

  /** Decimal digits of a natural number, most significant first, no leading zero. */
  function NatToString(n: nat): (s: string)
    ensures s != [] && AllDigits(s)
    decreases n
  {
    if n < 10 then [DigitChar(n)] else NatToString(n / 10) + [DigitChar(n % 10)]
  }

  /** `Int32.ToString()` in the invariant culture. */
  function IntToString(n: int): string {
    if n < 0 then "-" + NatToString(-n) else NatToString(n)
  }

  function DigitsValue(s: string): nat
    requires AllDigits(s)
    decreases |s|
  {
    if s == [] then 0
    else DigitsValue(s[..|s| - 1]) * 10 + (s[|s| - 1] as int - '0' as int)
  }

  lemma {:induction false} DigitsValueOfNat(n: nat)
    ensures DigitsValue(NatToString(n)) == n
    decreases n
  {
    if n >= 10 {
      DigitsValueOfNat(n / 10);
      var s := NatToString(n);
      assert s[..|s| - 1] == NatToString(n / 10);
    }
  }

  /** The white space `NumberStyles.Integer` allows around a number: the
      characters U+0009 to U+000D and the space, and no other. */
  predicate IsNumberWhite(c: char) {
    ('\t' <= c <= '\r') || c == ' '
  }

  /** Drops the trailing '\0' characters a number parse ignores. */
  function TrimNuls(s: string): (r: string)
    ensures r <= s
    ensures r == [] || r[|r| - 1] != '\0'
    decreases |s|
  {
    if s != [] && s[|s| - 1] == '\0' then TrimNuls(s[..|s| - 1]) else s
  }

  /** Drops trailing number white space. */
  function TrimNumberEnd(s: string): (r: string)
    ensures r <= s
    ensures r == [] || !IsNumberWhite(r[|r| - 1])
    decreases |s|
  {
    if s != [] && IsNumberWhite(s[|s| - 1]) then TrimNumberEnd(s[..|s| - 1]) else s
  }

  /** Drops leading number white space. */
  function TrimNumberStart(s: string): (r: string)
    ensures |r| <= |s| && r == s[|s| - |r|..]
    ensures r == [] || !IsNumberWhite(r[0])
    decreases |s|
  {
    if s != [] && IsNumberWhite(s[0]) then TrimNumberStart(s[1..]) else s
  }

  const Int32Min: int := -0x8000_0000
  const Int32Max: int := 0x7FFF_FFFF

  /** `Convert.ToInt32(string)`, that is `Int32.Parse` with `NumberStyles.Integer`:
      leading and trailing number white space, an optional sign, at least one
      decimal digit, a value in the 32-bit range, and any '\0' characters at
      the very end ignored. */
  function ParseInt32(s: string): Option<int> {
    var t := TrimNumberStart(TrimNumberEnd(TrimNuls(s)));
    var negative := t != [] && t[0] == '-';
    var body := if t != [] && (t[0] == '-' || t[0] == '+') then t[1..] else t;
    if body == [] || !AllDigits(body) then None
    else
      var v: int := if negative then -(DigitsValue(body) as int) else DigitsValue(body);
      if Int32Min <= v <= Int32Max then Some(v) else None
  }

  /** A text that starts with a sign or a digit and ends with a digit has
      nothing for a number parse to trim. */
  lemma NumberTextUntrimmed(s: string)
    requires s != [] && IsDigit(s[|s| - 1]) && (s[0] == '-' || IsDigit(s[0]))
    ensures TrimNumberStart(TrimNumberEnd(TrimNuls(s))) == s
  {
    assert TrimNuls(s) == s;
    assert TrimNumberEnd(s) == s;
  }

  /** Printing a 32-bit integer and parsing it back gives the same integer. */
  lemma IntToStringParses(n: int)
    requires Int32Min <= n <= Int32Max
    ensures ParseInt32(IntToString(n)) == Some(n)
  {
    var s := IntToString(n);
    if n < 0 {
      var b := NatToString(-n);
      DigitsValueOfNat(-n);
      assert s == "-" + b && s[1..] == b;
      NumberTextUntrimmed(s);
    } else {
      var b := NatToString(n);
      DigitsValueOfNat(n);
      assert s == b && IsDigit(s[0]);
      NumberTextUntrimmed(s);
    }
  }

  /** Only the number white space pads a number: a no-break space after the
      digits, or one after a '\0', makes the text malformed. */
  lemma {:induction false} ParseInt32RejectsOtherPadding()
    ensures ParseInt32("3\U{A0}") == None
    ensures ParseInt32("3\0 ") == None
  {
    assert "3\U{A0}"[..1] == "3";
    assert TrimNuls("3\U{A0}") == "3\U{A0}";
    assert TrimNumberEnd("3\U{A0}") == "3\U{A0}";
    assert TrimNumberStart("3\U{A0}") == "3\U{A0}";
    assert !IsDigit("3\U{A0}"[1]);
    assert "3\0 "[..2] == "3\0";
    assert "3\0"[..1] == "3";
    assert TrimNuls("3\0 ") == "3\0 ";
    assert TrimNumberEnd("3\0") == "3\0";
    assert TrimNumberEnd("3\0 ") == "3\0";
    assert TrimNumberStart("3\0") == "3\0";
    assert !IsDigit("3\0"[1]);
  }

  /** '\0' characters at the very end are ignored, and a tab or a space pads. */
  lemma {:induction false} ParseInt32IgnoresTrailingNuls()
    ensures ParseInt32("3\0") == Some(3)
    ensures ParseInt32("\t3 \0\0") == Some(3)
  {
    assert "3\0"[..1] == "3";
    assert TrimNuls("3") == "3";
    assert TrimNuls("3\0") == "3";
    assert TrimNumberEnd("3") == "3";
    assert TrimNumberStart("3") == "3";
    assert DigitsValue("3") == 3;
    assert "\t3 \0\0"[..4] == "\t3 \0";
    assert "\t3 \0"[..3] == "\t3 ";
    assert "\t3 "[..2] == "\t3";
    assert TrimNuls("\t3 ") == "\t3 ";
    assert TrimNuls("\t3 \0\0") == "\t3 ";
    assert TrimNumberEnd("\t3") == "\t3";
    assert TrimNumberEnd("\t3 ") == "\t3";
    assert "\t3"[1..] == "3";
    assert TrimNumberStart("\t3") == "3";
  }

  // ----- case-insensitive comparison -----

  function ToUpperAscii(c: char): char {
    if 'a' <= c <= 'z' then (c as int - 32) as char else c
  }

  /** `String.Equals(a, b, StringComparison.OrdinalIgnoreCase)`, with case folding
      restricted to the ASCII letters. */
  predicate EqualsIgnoreCase(a: string, b: string) {
    |a| == |b| && forall i :: 0 <= i < |a| ==> ToUpperAscii(a[i]) == ToUpperAscii(b[i])
  }
}
