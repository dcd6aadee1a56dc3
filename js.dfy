/** The few JavaScript primitives the scripts lean on, as pure functions:
    `null`/`undefined`/`NaN` as Option, `String.prototype.toLowerCase`,
    `String.prototype.split` on one character, `Array.prototype.join`,
    the decimal text a template literal gives an integer, and `parseInt(s, 10)`. */
module Js {

  /** A JavaScript value that may be absent: `null`, `undefined`, or `NaN` for a number. */
  datatype Option<+T> = None | Some(value: T)

  // ---------------------------------------------------------------- case

  /** Lower-cases an ASCII letter and leaves every other character alone. */
  function LowerChar(c: char): char
  {
    if 'A' <= c <= 'Z' then (c as int + 32) as char else c
  }

  /** `s.toLowerCase()`, character by character. */
  function Lower(s: string): (r: string)
    ensures |r| == |s|
    ensures forall i :: 0 <= i < |s| ==> r[i] == LowerChar(s[i])
  {
    if s == [] then [] else [LowerChar(s[0])] + Lower(s[1..])
  }

  /** Lower-casing twice is lower-casing once, so a key that is stored
      lower-cased is found again by a lower-cased lookup. */
  lemma LowerIdempotent(s: string)
    ensures Lower(Lower(s)) == Lower(s)
  {
  }

  // ---------------------------------------------------------------- split and join

  /** `s.split(sep)` for a one-character separator: never empty, `""` splits to `[""]`,
      and two adjacent separators give an empty field between them. */
  function Split(s: string, sep: char): (parts: seq<string>)
    ensures |parts| >= 1
    decreases |s|
  {
    if s == [] then [""]
    else
      var rest := Split(s[1..], sep);
      if s[0] == sep then [""] + rest else [[s[0]] + rest[0]] + rest[1..]
  }

  /** `parts.join(sep)`. */
  function Join(parts: seq<string>, sep: string): string
    decreases |parts|
  {
    if |parts| == 0 then ""
    else if |parts| == 1 then parts[0]
    else parts[0] + sep + Join(parts[1..], sep)
  }

  /** No field that `Split` produces contains the separator. */
  lemma {:induction false} SplitFieldsAreSeparatorFree(s: string, sep: char)
    ensures forall p :: p in Split(s, sep) ==> sep !in p
    decreases |s|
  {
    if s != [] {
      SplitFieldsAreSeparatorFree(s[1..], sep);
      var rest := Split(s[1..], sep);
      if s[0] != sep {
        assert sep !in rest[0];
        assert forall p :: p in rest[1..] ==> p in rest;
      }
    }
  }

  /** Joining the fields of a split with the same separator gives the text back. */
  lemma {:induction false} JoinSplit(s: string, sep: char)
    ensures Join(Split(s, sep), [sep]) == s
    decreases |s|
  {
    if s != [] {
      JoinSplit(s[1..], sep);
      var rest := Split(s[1..], sep);
      if s[0] == sep {
        if |rest| == 1 {
          assert Join([""] + rest, [sep]) == "" + [sep] + rest[0];
        } else {
          assert ([""] + rest)[1..] == rest;
        }
      } else {
        var parts := [[s[0]] + rest[0]] + rest[1..];
        if |rest| == 1 {
          assert Join(parts, [sep]) == [s[0]] + rest[0];
        } else {
          assert parts[1..] == rest[1..];
          assert Join(rest, [sep]) == rest[0] + [sep] + Join(rest[1..], [sep]);
        }
      }
    }
  }

  /** Splitting a text that starts with a separator-free field. */
  lemma {:induction false} SplitAfterField(p: string, t: string, sep: char)
    requires sep !in p
    ensures Split(p + t, sep) == [p + Split(t, sep)[0]] + Split(t, sep)[1..]
    decreases |p|
  {
    var tail := Split(t, sep);
    if p == [] {
      assert p + t == t;
      assert p + tail[0] == tail[0];
      assert tail == [tail[0]] + tail[1..];
    } else {
      assert (p + t)[0] == p[0] && p[0] != sep;
      assert (p + t)[1..] == p[1..] + t;
      assert sep !in p[1..];
      SplitAfterField(p[1..], t, sep);
      assert [p[0]] + (p[1..] + tail[0]) == p + tail[0];
    }
  }

  /** Splitting a join of separator-free fields gives the fields back. */
  lemma {:induction false} SplitJoin(parts: seq<string>, sep: char)
    requires |parts| >= 1
    requires forall p :: p in parts ==> sep !in p
    ensures Split(Join(parts, [sep]), sep) == parts
    decreases |parts|
  {
    if |parts| == 1 {
      SplitAfterField(parts[0], "", sep);
      assert parts[0] + "" == parts[0];
    } else {
      var tail := Join(parts[1..], [sep]);
      assert forall p :: p in parts[1..] ==> p in parts;
      SplitJoin(parts[1..], sep);
      assert Join(parts, [sep]) == parts[0] + ([sep] + tail);
      SplitAfterField(parts[0], [sep] + tail, sep);
      assert ([sep] + tail)[1..] == tail;
      assert Split([sep] + tail, sep) == [""] + Split(tail, sep);
      assert parts[0] + "" == parts[0];
      assert parts == [parts[0]] + parts[1..];
    }
  }

  // ---------------------------------------------------------------- decimal text

  predicate IsDigit(c: char)
  {
    '0' <= c <= '9'
  }

  function DigitChar(d: nat): (c: char)
    requires d < 10
    ensures IsDigit(c) && DigitValue(c) == d
  {
    ('0' as int + d) as char
  }

  /** The base-10 digits of `n`, most significant first, without leading zeros. */
  function NatToDecimal(n: nat): (s: string)
    ensures |s| >= 1
    ensures forall i :: 0 <= i < |s| ==> IsDigit(s[i])
  {
    if n < 10 then [DigitChar(n)] else NatToDecimal(n / 10) + [DigitChar(n % 10)]
  }

  /** The text `${i}` for an integer-valued number `i`. */
  function IntToDecimal(i: int): string
  {
    if i < 0 then "-" + NatToDecimal(-i) else NatToDecimal(i)
  }

  // ---------------------------------------------------------------- parseInt

  predicate IsSpace(c: char)
  {
    c == ' ' || c == '\t' || c == '\n' || c == '\r'
  }

  /** The length of the run of digits at the start of `s`. */
  function DigitPrefix(s: string): (n: nat)
    ensures n <= |s|
    ensures forall i :: 0 <= i < n ==> IsDigit(s[i])
    ensures n < |s| ==> !IsDigit(s[n])
  {
    if s != [] && IsDigit(s[0]) then 1 + DigitPrefix(s[1..]) else 0
  }

  function DigitValue(c: char): nat
    requires IsDigit(c)
  {
    c as int - '0' as int
  }

  /** The value of a run of base-10 digits. */
  function DigitsValue(d: string): nat
    requires forall i :: 0 <= i < |d| ==> IsDigit(d[i])
  {
    if d == [] then 0 else DigitsValue(d[..|d| - 1]) * 10 + DigitValue(d[|d| - 1])
  }

  /** `parseInt(s, 10)`: leading white space is skipped, one sign is read, and the
      longest run of digits after it is the value; with no digit the result is `NaN`. */
  function ParseInt(s: string): (r: Option<int>)
    ensures r.None? <==> DigitPrefix(Unsigned(Unspaced(s))) == 0
  {
    var t := Unspaced(s);
    var body := Unsigned(t);
    var n := DigitPrefix(body);
    if n == 0 then None
    else if |t| > 0 && t[0] == '-' then Some(0 - DigitsValue(body[..n]))
    else Some(DigitsValue(body[..n]))
  }

  /** `s` without its leading white space. */
  function Unspaced(s: string): (t: string)
    ensures t == [] || !IsSpace(t[0])
  {
    if s != [] && IsSpace(s[0]) then Unspaced(s[1..]) else s
  }

  /** `t` without a leading sign. */
  function Unsigned(t: string): string
  {
    if |t| > 0 && (t[0] == '-' || t[0] == '+') then t[1..] else t
  }

  lemma {:induction false} DigitPrefixOfDigits(d: string, rest: string)
    requires forall i :: 0 <= i < |d| ==> IsDigit(d[i])
    requires rest == [] || !IsDigit(rest[0])
    ensures DigitPrefix(d + rest) == |d|
    decreases |d|
  {
    if d == [] {
      assert d + rest == rest;
    } else {
      assert (d + rest)[1..] == d[1..] + rest;
      DigitPrefixOfDigits(d[1..], rest);
    }
  }

  lemma {:induction false} DigitsValueOfDecimal(n: nat)
    ensures DigitsValue(NatToDecimal(n)) == n
  {
    if n >= 10 {
      var s := NatToDecimal(n);
      assert s[..|s| - 1] == NatToDecimal(n / 10);
      DigitsValueOfDecimal(n / 10);
    }
  }

  lemma {:induction false} UnspacedSkipsBlanks(blanks: string, t: string)
    requires forall i :: 0 <= i < |blanks| ==> IsSpace(blanks[i])
    requires t == [] || !IsSpace(t[0])
    ensures Unspaced(blanks + t) == t
    decreases |blanks|
  {
    if blanks == [] {
      assert blanks + t == t;
    } else {
      assert (blanks + t)[1..] == blanks[1..] + t;
      UnspacedSkipsBlanks(blanks[1..], t);
    }
  }

  lemma ParseIntAfterBlanks(blanks: string, t: string)
    requires forall i :: 0 <= i < |blanks| ==> IsSpace(blanks[i])
    requires t == [] || !IsSpace(t[0])
    ensures ParseInt(blanks + t) == ParseInt(t)
  {
    UnspacedSkipsBlanks(blanks, t);
    UnspacedSkipsBlanks([], t);
    assert [] + t == t;
  }

  lemma ParseIntOfDigitRun(d: string, rest: string)
    requires |d| >= 1 && forall i :: 0 <= i < |d| ==> IsDigit(d[i])
    requires rest == [] || !IsDigit(rest[0])
    ensures ParseInt(d + rest) == Some(DigitsValue(d))
  {
    var t := d + rest;
    assert t[0] == d[0];
    assert Unspaced(t) == t;
    assert Unsigned(t) == t;
    DigitPrefixOfDigits(d, rest);
    assert t[..|d|] == d;
  }

  /** `parseInt` reads the run of digits after the leading blanks and ignores whatever
      follows it, such as the carriage return that ends a line of a CRLF file. */
  lemma ParseIntIgnoresTrailingText(blanks: string, d: string, rest: string)
    requires forall i :: 0 <= i < |blanks| ==> IsSpace(blanks[i])
    requires |d| >= 1 && forall i :: 0 <= i < |d| ==> IsDigit(d[i])
    requires rest == [] || !IsDigit(rest[0])
    ensures ParseInt(blanks + d + rest) == Some(DigitsValue(d))
  {
    var t := d + rest;
    assert blanks + d + rest == blanks + t;
    assert t[0] == d[0];
    ParseIntAfterBlanks(blanks, t);
    ParseIntOfDigitRun(d, rest);
  }

  /** `parseInt` reads back the decimal text of any integer. */
  lemma {:induction false} ParseIntDecimal(i: int)
    ensures ParseInt(IntToDecimal(i)) == Some(i)
  {
    var n: nat := if i < 0 then -i else i;
    var d := NatToDecimal(n);
    var text := IntToDecimal(i);
    assert Unspaced(text) == text;
    DigitPrefixOfDigits(d, []);
    assert d + [] == d;
    DigitsValueOfDecimal(n);
    if i < 0 {
      assert Unsigned(text) == d;
      assert d[..|d|] == d;
    } else {
      assert Unsigned(text) == d;
      assert d[..|d|] == d;
    }
  }
}
