/**
 * The few ECMAScript string built-ins the SMTP core relies on, stated as
 * Dafny functions: `split` with a one-character separator, `join`, `substr`,
 * `trim`, `parseInt(_, 10)`, number-to-string for integers, the `\s` class and
 * `replace(/\s\s+/g, ' ')`. Strings are sequences of Unicode scalar values.
 */
module JsText {
  import opened Wrappers

  /** The ECMAScript `\s` class: the WhiteSpace and LineTerminator productions.
      `trim` and `parseInt` skip exactly these characters. */
  predicate IsWhiteSpace(c: char) {
    c == '\t' || c == '\n' || c == '\U{000B}' || c == '\U{000C}' || c == '\r' || c == ' '
    || c == '\U{00A0}' || c == '\U{1680}' || ('\U{2000}' <= c <= '\U{200A}')
    || c == '\U{2028}' || c == '\U{2029}' || c == '\U{202F}' || c == '\U{205F}'
    || c == '\U{3000}' || c == '\U{FEFF}'
  }

  /** The ECMAScript LineTerminator production: the characters `.` does not match. */
  predicate IsLineTerminator(c: char) {
    c == '\n' || c == '\r' || c == '\U{2028}' || c == '\U{2029}'
  }

  predicate IsDigit(c: char) {
    '0' <= c <= '9'
  }

  /** `s.substr(0, n)`: at most the first n characters. */
  function Prefix(s: string, n: nat): (r: string)
    ensures |r| == if n <= |s| then n else |s|
    ensures r <= s
  {
    if n <= |s| then s[..n] else s
  }

  /** `s.substr(start)` for a non-negative start: what `substr(0, start)`
      leaves over, so the two put together give `s` back. */
  function Substr(s: string, start: nat): (r: string)
    ensures |r| == if start <= |s| then |s| - start else 0
    ensures Prefix(s, start) + r == s
  {
    if start <= |s| then s[start..] else []
  }

  /** `a.slice(n)`: the elements from index `n` on, in order. */
  function Drop<T>(a: seq<T>, n: nat): (r: seq<T>)
    ensures |r| == if n <= |a| then |a| - n else 0
    ensures forall i :: 0 <= i < |r| ==> r[i] == a[n + i]
    ensures n <= |a| ==> a[..n] + r == a
  {
    if n <= |a| then a[n..] else []
  }

  /** `s.split(sep)` for a one-character separator: the maximal separator-free
      pieces, in order; there is always at least one (possibly empty) piece. */
  function Split(s: string, sep: char): (parts: seq<string>)
    ensures |parts| >= 1
    ensures forall i :: 0 <= i < |parts| ==> sep !in parts[i]
    decreases |s|
  {
    if s == [] then [[]]
    else
      var rest := Split(s[1..], sep);
      if s[0] == sep then [[]] + rest else [[s[0]] + rest[0]] + rest[1..]
  }

  /** `parts.join(sep)`. */
  function Join(parts: seq<string>, sep: string): string
  {
    if parts == [] then []
    else if |parts| == 1 then parts[0]
    else parts[0] + sep + Join(parts[1..], sep)
  }

  function Last<T>(s: seq<T>): T
    requires |s| > 0
  {
    s[|s| - 1]
  }

  function AllButLast<T>(s: seq<T>): seq<T>
    requires |s| > 0
  {
    s[..|s| - 1]
  }

  /** Splitting and joining again with the same separator gives back the input. */
  lemma {:induction false} JoinSplit(s: string, sep: char)
    ensures Join(Split(s, sep), [sep]) == s
    decreases |s|
  {
    if s != [] {
      var rest := Split(s[1..], sep);
      JoinSplit(s[1..], sep);
      if s[0] == sep {
        assert Split(s, sep) == [[]] + rest;
        assert ([[]] + rest)[1..] == rest;
        assert [sep] + s[1..] == s;
      } else if |rest| == 1 {
        assert Split(s, sep) == [[s[0]] + rest[0]];
        assert [s[0]] + s[1..] == s;
      } else {
        var parts := [[s[0]] + rest[0]] + rest[1..];
        assert Split(s, sep) == parts;
        assert parts[1..] == rest[1..];
        assert Join(rest, [sep]) == rest[0] + [sep] + Join(rest[1..], [sep]);
        assert [s[0]] + s[1..] == s;
      }
    }
  }

  /** There is exactly one piece iff the separator does not occur, and then
      that piece is the whole string. */
  lemma SplitSingle(s: string, sep: char)
    ensures |Split(s, sep)| == 1 <==> sep !in s
    ensures sep !in s ==> Split(s, sep) == [s]
  {
    JoinSplit(s, sep);
    if sep !in s {
      SplitWithoutSeparator(s, sep);
    }
  }

  lemma {:induction false} SplitWithoutSeparator(s: string, sep: char)
    requires sep !in s
    ensures Split(s, sep) == [s]
    decreases |s|
  {
    if s != [] {
      SplitWithoutSeparator(s[1..], sep);
      assert [s[0]] + s[1..] == s;
    }
  }

  /** One unfolding of `Split` on a string written as a first character and the rest. */
  lemma SplitCons(c: char, s: string, sep: char)
    ensures Split([c] + s, sep)
            == if c == sep then [[]] + Split(s, sep)
               else [[c] + Split(s, sep)[0]] + Split(s, sep)[1..]
  {
    assert ([c] + s)[0] == c && ([c] + s)[1..] == s;
  }

  /** Splitting `x + y` splits `x`, and then continues from its last piece. */
  lemma {:induction false} SplitAppend(x: string, y: string, sep: char)
    ensures Split(x + y, sep)
            == AllButLast(Split(x, sep)) + Split(Last(Split(x, sep)) + y, sep)
    decreases |x|
  {
    if x == [] {
      assert x + y == y;
    } else {
      var c, x' := x[0], x[1..];
      SplitAppend(x', y, sep);
      assert x == [c] + x';
      assert x + y == [c] + (x' + y);
      SplitAppendStep(c, x', y, sep);
    }
  }

  /** The inductive step of SplitAppend: putting one character in front. */
  lemma SplitAppendStep(c: char, x: string, y: string, sep: char)
    requires Split(x + y, sep) == AllButLast(Split(x, sep)) + Split(Last(Split(x, sep)) + y, sep)
    ensures Split([c] + (x + y), sep)
            == AllButLast(Split([c] + x, sep)) + Split(Last(Split([c] + x, sep)) + y, sep)
  {
    if c == sep {
      SplitAppendStepSeparator(x, y, sep);
    } else if |Split(x, sep)| == 1 {
      SplitAppendStepSingle(c, x, y, sep);
    } else {
      SplitAppendStepMany(c, x, y, sep);
    }
  }

  lemma SplitAppendStepSeparator(x: string, y: string, sep: char)
    requires Split(x + y, sep) == AllButLast(Split(x, sep)) + Split(Last(Split(x, sep)) + y, sep)
    ensures Split([sep] + (x + y), sep)
            == AllButLast(Split([sep] + x, sep)) + Split(Last(Split([sep] + x, sep)) + y, sep)
  {
    var px := Split(x, sep);
    SeparatorFirst(x, sep);
    SeparatorFirst(x + y, sep);
    ConsFront([], px, Split(Last(px) + y, sep));
  }

  /** Putting `h` in front of a non-empty sequence keeps its last element. */
  lemma ConsFront<T>(h: T, s: seq<T>, back: seq<T>)
    requires |s| > 0
    ensures Last([h] + s) == Last(s)
    ensures AllButLast([h] + s) + back == [h] + (AllButLast(s) + back)
  {
    assert AllButLast([h] + s) == [h] + AllButLast(s);
  }

  lemma SeparatorFirst(s: string, sep: char)
    ensures Split([sep] + s, sep) == [[]] + Split(s, sep)
  {
    assert ([sep] + s)[0] == sep && ([sep] + s)[1..] == s;
  }

  lemma SplitAppendStepSingle(c: char, x: string, y: string, sep: char)
    requires c != sep && |Split(x, sep)| == 1
    ensures Split([c] + (x + y), sep)
            == AllButLast(Split([c] + x, sep)) + Split(Last(Split([c] + x, sep)) + y, sep)
  {
    SplitSingle(x, sep);
    assert sep !in [c] + x;
    SplitSingle([c] + x, sep);
    assert [c] + (x + y) == ([c] + x) + y;
  }

  lemma SplitAppendStepMany(c: char, x: string, y: string, sep: char)
    requires c != sep && |Split(x, sep)| > 1
    requires Split(x + y, sep) == AllButLast(Split(x, sep)) + Split(Last(Split(x, sep)) + y, sep)
    ensures Split([c] + (x + y), sep)
            == AllButLast(Split([c] + x, sep)) + Split(Last(Split([c] + x, sep)) + y, sep)
  {
    var px := Split(x, sep);
    var tail := Split(Last(px) + y, sep);
    var r := Split(x + y, sep);
    SplitCons(c, x, sep);
    SplitCons(c, x + y, sep);
    var sx := [[c] + px[0]] + px[1..];
    assert Split([c] + x, sep) == sx;
    assert Last(sx) == Last(px);
    assert r[0] == px[0];
    assert r[1..] == AllButLast(px)[1..] + tail;
    assert AllButLast(sx) == [[c] + px[0]] + AllButLast(px)[1..];
  }

  /** A separator-free piece followed by the separator splits off as one piece. */
  lemma {:induction false} SplitAtSeparator(x: string, y: string, sep: char)
    requires sep !in x
    ensures Split(x + [sep] + y, sep) == [x] + Split(y, sep)
    decreases |x|
  {
    if x == [] {
      SplitCons(sep, y, sep);
      assert x + [sep] + y == [sep] + y;
    } else {
      SplitAtSeparator(x[1..], y, sep);
      assert x + [sep] + y == [x[0]] + (x[1..] + [sep] + y);
      SplitCons(x[0], x[1..] + [sep] + y, sep);
      assert [x[0]] + x[1..] == x;
    }
  }

  /** Joining separator-free pieces and splitting again gives back the pieces. */
  lemma {:induction false} SplitJoin(parts: seq<string>, sep: char)
    requires |parts| >= 1
    requires forall i :: 0 <= i < |parts| ==> sep !in parts[i]
    ensures Split(Join(parts, [sep]), sep) == parts
    decreases |parts|
  {
    if |parts| == 1 {
      SplitWithoutSeparator(parts[0], sep);
    } else {
      SplitJoin(parts[1..], sep);
      SplitAtSeparator(parts[0], Join(parts[1..], [sep]), sep);
      assert parts == [parts[0]] + parts[1..];
    }
  }

  /** The first piece is the text before the first separator, or all of it. */
  lemma {:induction false} SplitFirst(s: string, sep: char)
    ensures Split(s, sep)[0] <= s
    ensures |Split(s, sep)[0]| == |s| || s[|Split(s, sep)[0]|] == sep
    decreases |s|
  {
    if s != [] && s[0] != sep {
      SplitFirst(s[1..], sep);
      assert Split(s, sep)[0] == [s[0]] + Split(s[1..], sep)[0];
    }
  }

  /** A character other than the separator ends up in one of the pieces. */
  lemma {:induction false} InSplit(s: string, sep: char, j: nat)
    requires j < |s| && s[j] != sep
    ensures exists k :: 0 <= k < |Split(s, sep)| && s[j] in Split(s, sep)[k]
    decreases |s|
  {
    var rest := Split(s[1..], sep);
    if j == 0 {
      assert Split(s, sep)[0] == [s[0]] + rest[0];
    } else {
      assert s[1..][j - 1] == s[j];
      InSplit(s[1..], sep, j - 1);
      var k :| 0 <= k < |rest| && s[j] in rest[k];
      if s[0] == sep {
        assert Split(s, sep)[k + 1] == rest[k];
      } else if k == 0 {
        assert Split(s, sep)[0] == [s[0]] + rest[0];
      } else {
        assert Split(s, sep)[k] == rest[k];
      }
    }
  }

  /** `s.trimStart()`: drops the leading `\s` characters. */
  function TrimStart(s: string): (r: string)
    ensures |r| <= |s| && r == s[|s| - |r|..]
    ensures s != [] && IsWhiteSpace(s[0]) ==> |r| < |s|
    ensures r != [] ==> !IsWhiteSpace(r[0])
    ensures forall i :: 0 <= i < |s| - |r| ==> IsWhiteSpace(s[i])
  {
    if s != [] && IsWhiteSpace(s[0]) then
      var r := TrimStart(s[1..]);
      assert forall i :: 1 <= i < |s| - |r| ==> s[i] == s[1..][i - 1];
      r
    else s
  }

  /** `s.trimEnd()`: drops the trailing `\s` characters. */
  function TrimEnd(s: string): (r: string)
    ensures |r| <= |s| && r == s[..|r|]
    ensures r != [] ==> !IsWhiteSpace(r[|r| - 1])
    ensures forall i :: |r| <= i < |s| ==> IsWhiteSpace(s[i])
  {
    if s != [] && IsWhiteSpace(s[|s| - 1]) then TrimEnd(s[..|s| - 1]) else s
  }

  /** `s.trim()`. */
  function Trim(s: string): string {
    TrimEnd(TrimStart(s))
  }

  /** `s.toUpperCase()` on the ASCII letters; every other character is kept. */
  function ToUpperAscii(s: string): (r: string)
    ensures |r| == |s|
    ensures forall i :: 0 <= i < |s| ==>
              r[i] == if 'a' <= s[i] <= 'z' then (s[i] as int - 32) as char else s[i]
    ensures NoLowerAscii(r)
  {
    if s == [] then []
    else [if 'a' <= s[0] <= 'z' then (s[0] as int - 32) as char else s[0]] + ToUpperAscii(s[1..])
  }

  /** No lower-case ASCII letter. */
  predicate NoLowerAscii(s: string) {
    forall i :: 0 <= i < |s| ==> !('a' <= s[i] <= 'z')
  }

  /** The longest prefix of decimal digits. */
  function DigitPrefix(s: string): (r: string)
    ensures r <= s
    ensures forall i :: 0 <= i < |r| ==> IsDigit(r[i])
    ensures |r| < |s| ==> !IsDigit(s[|r|])
  {
    if s != [] && IsDigit(s[0]) then [s[0]] + DigitPrefix(s[1..]) else []
  }

  /** The value of a string of decimal digits. */
  function DigitsValue(d: string): nat
    requires forall i :: 0 <= i < |d| ==> IsDigit(d[i])
  {
    if d == [] then 0 else DigitsValue(AllButLast(d)) * 10 + DigitValue(d[|d| - 1])
  }

  function DigitValue(c: char): nat
    requires IsDigit(c)
  {
    c as int - '0' as int
  }

  /** `parseInt(s, 10)`: skips leading `\s`, takes an optional sign and the
      longest run of digits after it; `None` is the source's NaN (no digit). */
  function ParseInt(s: string): (r: Option<int>)
    ensures r.None? <==> DigitPrefix(UnsignedPart(TrimStart(s))) == []
  {
    var t := TrimStart(s);
    var d := DigitPrefix(UnsignedPart(t));
    if d == [] then None
    else if t[0] == '-' then Some(0 - DigitsValue(d) as int)
    else Some(DigitsValue(d))
  }

  /** What follows an optional leading `+` or `-`. */
  function UnsignedPart(t: string): (u: string)
    ensures u == if t != [] && (t[0] == '-' || t[0] == '+') then t[1..] else t
  {
    if t != [] && (t[0] == '-' || t[0] == '+') then t[1..] else t
  }

  /** Decimal digits of a natural number, most significant first, no leading zero. */
  function NatToString(n: nat): (r: string)
    ensures |r| > 0
    ensures forall i :: 0 <= i < |r| ==> IsDigit(r[i])
    ensures DigitsValue(r) == n
  {
    var digit := ('0' as int + n % 10) as char;
    if n < 10 then
      assert DigitsValue([digit]) == DigitsValue([]) * 10 + n % 10;
      [digit]
    else
      var r := NatToString(n / 10) + [digit];
      assert AllButLast(r) == NatToString(n / 10);
      r
  }

  /** A JavaScript template `${i}` of an integer. */
  function IntToString(i: int): string {
    if i < 0 then "-" + NatToString(-i) else NatToString(i)
  }

  lemma DigitPrefixOfDigits(d: string, rest: string)
    requires forall i :: 0 <= i < |d| ==> IsDigit(d[i])
    requires rest == [] || !IsDigit(rest[0])
    ensures DigitPrefix(d + rest) == d
  {
    if d != [] {
      assert (d + rest)[1..] == d[1..] + rest;
      DigitPrefixOfDigits(d[1..], rest);
      assert [d[0]] + d[1..] == d;
    }
  }

  /** `parseInt` reads back what the integer template wrote. */
  lemma ParseIntString(i: int)
    ensures ParseInt(IntToString(i)) == Some(i)
  {
    if i < 0 {
      ParseNegative(i);
    } else {
      ParseNatural(i);
    }
  }

  lemma ParseNatural(i: int)
    requires i >= 0
    ensures ParseInt(IntToString(i)) == Some(i)
  {
    var digits := NatToString(i);
    assert IntToString(i) == digits;
    DigitsAlone(digits);
    TrimStartKeeps(digits);
    assert UnsignedPart(digits) == digits;
    assert DigitsValue(digits) == i;
  }

  lemma ParseNegative(i: int)
    requires i < 0
    ensures ParseInt(IntToString(i)) == Some(i)
  {
    var digits := NatToString(-i);
    DigitsAlone(digits);
    var s := "-" + digits;
    assert s[0] == '-' && s[1..] == digits;
    TrimStartKeeps(s);
  }

  /** A run of digits with nothing after it is its own longest digit prefix. */
  lemma DigitsAlone(d: string)
    requires forall i :: 0 <= i < |d| ==> IsDigit(d[i])
    ensures DigitPrefix(d) == d
  {
    DigitPrefixOfDigits(d, []);
    assert d + [] == d;
  }

  /** A string that starts with a digit or a minus sign is its own `trimStart()`. */
  lemma TrimStartKeeps(s: string)
    requires s != [] && (IsDigit(s[0]) || s[0] == '-')
    ensures TrimStart(s) == s
  {
  }

  /** `s.replace(/\s\s+/g, ' ')`: every run of two or more `\s` characters,
      found left to right, becomes one space; a lone `\s` is kept as it is. */
  function CollapseWhiteSpace(s: string): (r: string)
    ensures |r| <= |s|
    ensures (r == []) == (s == [])
    ensures s != [] ==> (IsWhiteSpace(r[0]) <==> IsWhiteSpace(s[0]))
    ensures s != [] && !IsWhiteSpace(s[0]) ==> r[0] == s[0]
    ensures NoWhiteSpaceRun(r)
    decreases |s|
  {
    if |s| >= 2 && IsWhiteSpace(s[0]) && IsWhiteSpace(s[1]) then
      var rest := TrimStart(s);
      " " + CollapseWhiteSpace(rest)
    else if s == [] then []
    else [s[0]] + CollapseWhiteSpace(s[1..])
  }

  /** No two adjacent `\s` characters. */
  predicate NoWhiteSpaceRun(s: string) {
    forall i :: 0 <= i < |s| - 1 ==> !(IsWhiteSpace(s[i]) && IsWhiteSpace(s[i + 1]))
  }

  /** A string without a run of whitespace is left alone, so collapsing twice
      is collapsing once. */
  lemma {:induction false} CollapseFixpoint(s: string)
    requires NoWhiteSpaceRun(s)
    ensures CollapseWhiteSpace(s) == s
    decreases |s|
  {
    if s != [] {
      assert !(|s| >= 2 && IsWhiteSpace(s[0]) && IsWhiteSpace(s[1]));
      assert NoWhiteSpaceRun(s[1..]) by {
        forall i | 0 <= i < |s[1..]| - 1
          ensures !(IsWhiteSpace(s[1..][i]) && IsWhiteSpace(s[1..][i + 1]))
        {
          assert s[1..][i] == s[i + 1] && s[1..][i + 1] == s[i + 2];
        }
      }
      CollapseFixpoint(s[1..]);
      assert [s[0]] + s[1..] == s;
    }
  }

  lemma CollapseIdempotent(s: string)
    ensures CollapseWhiteSpace(CollapseWhiteSpace(s)) == CollapseWhiteSpace(s)
  {
    CollapseFixpoint(CollapseWhiteSpace(s));
  }
}
