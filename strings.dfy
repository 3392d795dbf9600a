/**
 * The parts of JavaScript's string library that the modelled code relies on:
 * ASCII case mapping, trimming, `split` on one character and on runs of
 * non-word characters (`/\W+/`), `join`, substring search, `parseInt` with no
 * radix, and `Number.prototype.toString(base)` for integers.
 */
module Strings {
  import opened Wrappers

  // ---------------------------------------------------------------------------
  // Character classes

  predicate IsDigit(c: char) { '0' <= c <= '9' }

  /** The characters `\w` matches: `[A-Za-z0-9_]`. */
  predicate IsWordChar(c: char)
  {
    'a' <= c <= 'z' || 'A' <= c <= 'Z' || IsDigit(c) || c == '_'
  }

  /**
   * JavaScript's WhiteSpace and LineTerminator characters: tab, vertical tab,
   * form feed, space, no-break space, the BOM, line feed, carriage return, the
   * line and paragraph separators, and the other Unicode space separators
   * (U+1680, U+2000 to U+200A, U+202F, U+205F, U+3000).
   */
  predicate IsWhiteSpace(c: char)
  {
    c == ' ' || c == '\t' || c == '\n' || c == '\r' || c == '\U{000B}' || c == '\U{000C}'
    || c == '\U{00A0}' || c == '\U{FEFF}' || c == '\U{2028}' || c == '\U{2029}'
    || c == '\U{1680}' || ('\U{2000}' <= c <= '\U{200A}') || c == '\U{202F}'
    || c == '\U{205F}' || c == '\U{3000}'
  }

  // ---------------------------------------------------------------------------
  // Case mapping (ASCII letters only)

  function LowerChar(c: char): (r: char)
    ensures 'A' <= c <= 'Z' ==> r as int == c as int + 32
    ensures !('A' <= c <= 'Z') ==> r == c
  {
    if 'A' <= c <= 'Z' then (c as int + 32) as char else c
  }

  function UpperChar(c: char): (r: char)
    ensures 'a' <= c <= 'z' ==> r as int == c as int - 32
    ensures !('a' <= c <= 'z') ==> r == c
  {
    if 'a' <= c <= 'z' then (c as int - 32) as char else c
  }

  function ToLower(s: string): (r: string)
    ensures |r| == |s|
    ensures forall i :: 0 <= i < |s| ==> r[i] == LowerChar(s[i])
  {
    seq(|s|, i requires 0 <= i < |s| => LowerChar(s[i]))
  }

  function ToUpper(s: string): (r: string)
    ensures |r| == |s|
    ensures forall i :: 0 <= i < |s| ==> r[i] == UpperChar(s[i])
  {
    seq(|s|, i requires 0 <= i < |s| => UpperChar(s[i]))
  }

  lemma ToLowerIdempotent(s: string)
    ensures ToLower(ToLower(s)) == ToLower(s)
  {
  }

  /** Lower-casing an upper-cased string is lower-casing it. */
  lemma LowerOfUpper(s: string)
    ensures ToLower(ToUpper(s)) == ToLower(s)
  {
  }

  // ---------------------------------------------------------------------------
  // Trimming

  function TrimStart(s: string): (r: string)
    ensures |r| <= |s| && r == s[|s| - |r|..]
    ensures |r| > 0 ==> !IsWhiteSpace(r[0])
    ensures forall i :: 0 <= i < |s| - |r| ==> IsWhiteSpace(s[i])
  {
    if |s| > 0 && IsWhiteSpace(s[0]) then TrimStart(s[1..]) else s
  }

  function TrimEnd(s: string): (r: string)
    ensures |r| <= |s| && r == s[..|r|]
    ensures |r| > 0 ==> !IsWhiteSpace(r[|r| - 1])
    ensures forall i :: |r| <= i < |s| ==> IsWhiteSpace(s[i])
  {
    if |s| > 0 && IsWhiteSpace(s[|s| - 1]) then TrimEnd(s[..|s| - 1]) else s
  }

  /** `String.prototype.trim`: `s` is white space, then `r`, then white space; `r` starts and ends with neither. */
  function Trim(s: string): (r: string)
    ensures |r| <= |s|
    ensures |r| > 0 ==> !IsWhiteSpace(r[0]) && !IsWhiteSpace(r[|r| - 1])
    ensures (forall i :: 0 <= i < |s| ==> !IsWhiteSpace(s[i])) ==> r == s
  {
    TrimEnd(TrimStart(s))
  }

  // ---------------------------------------------------------------------------
  // split and join

  /** `s.split(sep)` for a one-character separator. */
  function Split(s: string, sep: char): (r: seq<string>)
    ensures |r| >= 1
    ensures forall k :: 0 <= k < |r| ==> sep !in r[k]
  {
    if |s| == 0 then [""]
    else
      var rest := Split(s[1..], sep);
      if s[0] == sep then [""] + rest else [[s[0]] + rest[0]] + rest[1..]
  }

  /** `parts.join(sep)`. */
  function Join(parts: seq<string>, sep: string): string
  {
    if |parts| == 0 then ""
    else if |parts| == 1 then parts[0]
    else parts[0] + sep + Join(parts[1..], sep)
  }

  /** Splitting on a character and joining with it gives back the string. */
  lemma {:induction false} JoinSplit(s: string, sep: char)
    ensures Join(Split(s, sep), [sep]) == s
  {
    if |s| > 0 {
      JoinSplit(s[1..], sep);
      var rest := Split(s[1..], sep);
      if s[0] != sep {
        if |rest| == 1 {
          assert Split(s, sep) == [[s[0]] + rest[0]];
        } else {
          assert Split(s, sep) == [[s[0]] + rest[0]] + rest[1..];
          assert Join(Split(s, sep), [sep]) == [s[0]] + rest[0] + [sep] + Join(rest[1..], [sep]);
        }
      }
    }
  }

  /** A string without the separator does not split. */
  lemma {:induction false} SplitWithoutSeparator(s: string, sep: char)
    requires sep !in s
    ensures Split(s, sep) == [s]
  {
    if |s| > 0 {
      SplitWithoutSeparator(s[1..], sep);
      assert [s[0]] + s[1..] == s;
    }
  }

  /** Splitting a part followed by the separator yields that part, then the rest's pieces. */
  lemma {:induction false} SplitAfterPart(a: string, b: string, sep: char)
    requires sep !in a
    ensures Split(a + [sep] + b, sep) == [a] + Split(b, sep)
  {
    if |a| == 0 {
      assert a + [sep] + b == [sep] + b;
      assert ([sep] + b)[1..] == b;
    } else {
      SplitAfterPart(a[1..], b, sep);
      assert (a + [sep] + b)[1..] == a[1..] + [sep] + b;
      assert [a[0]] + a[1..] == a;
    }
  }

  /** Joining pieces free of the separator and splitting again gives back the pieces. */
  lemma {:induction false} SplitJoin(parts: seq<string>, sep: char)
    requires |parts| >= 1
    requires forall k :: 0 <= k < |parts| ==> sep !in parts[k]
    ensures Split(Join(parts, [sep]), sep) == parts
  {
    if |parts| == 1 {
      SplitWithoutSeparator(parts[0], sep);
    } else {
      SplitJoin(parts[1..], sep);
      SplitAfterPart(parts[0], Join(parts[1..], [sep]), sep);
      assert [parts[0]] + parts[1..] == parts;
    }
  }

  /** Joining with one more piece at the end adds the separator and that piece. */
  lemma {:induction false} JoinAppend(parts: seq<string>, last: string, sep: string)
    requires |parts| >= 1
    ensures Join(parts + [last], sep) == Join(parts, sep) + sep + last
  {
    if |parts| > 1 {
      JoinAppend(parts[1..], last, sep);
      assert (parts + [last])[1..] == parts[1..] + [last];
    }
  }

  /** Drops the maximal leading run of non-word characters. */
  function DropNonWord(s: string): (r: string)
    ensures |r| <= |s| && r == s[|s| - |r|..]
    ensures |r| > 0 ==> IsWordChar(r[0])
    ensures forall i :: 0 <= i < |s| - |r| ==> !IsWordChar(s[i])
  {
    if |s| > 0 && !IsWordChar(s[0]) then
      var r := DropNonWord(s[1..]);
      assert forall i :: 1 <= i < |s| - |r| ==> s[i] == s[1..][i - 1];
      r
    else s
  }

  /**
   * `s.split(/\W+/)`: the pieces between maximal runs of non-word
   * characters; a leading or trailing run gives an empty first or last piece.
   */
  function SplitNonWord(s: string): (r: seq<string>)
    ensures |r| >= 1
    decreases |s|
  {
    if |s| == 0 then [""]
    else if IsWordChar(s[0]) then
      var rest := SplitNonWord(s[1..]);
      [[s[0]] + rest[0]] + rest[1..]
    else
      [""] + SplitNonWord(DropNonWord(s))
  }

  /** Every character of `s` is a word character. */
  predicate AllWord(s: string)
  {
    |s| == 0 || (IsWordChar(s[0]) && AllWord(s[1..]))
  }

  /** A string of word characters only is one piece. */
  lemma {:induction false} SplitNonWordSingle(s: string)
    requires AllWord(s)
    ensures SplitNonWord(s) == [s]
  {
    if |s| > 0 {
      SplitNonWordSingle(s[1..]);
      assert [s[0]] + s[1..] == s;
    }
  }

  /** Word characters in front of a piece extend the first piece. */
  lemma {:induction false} SplitNonWordPrefix(a: string, rest: string)
    requires AllWord(a)
    requires |rest| > 0 && !IsWordChar(rest[0])
    ensures SplitNonWord(a + rest) == [a] + SplitNonWord(DropNonWord(rest))
  {
    if |a| == 0 {
      assert a + rest == rest;
    } else {
      SplitNonWordPrefix(a[1..], rest);
      SplitNonWordCons(a, rest, SplitNonWord(DropNonWord(rest)));
    }
  }

  /** One word character more in front of `a` extends the first piece. */
  lemma SplitNonWordCons(a: string, rest: string, tail: seq<string>)
    requires |a| > 0 && IsWordChar(a[0])
    requires SplitNonWord(a[1..] + rest) == [a[1..]] + tail
    ensures SplitNonWord(a + rest) == [a] + tail
  {
    var s := a + rest;
    assert s[0] == a[0];
    assert s[1..] == a[1..] + rest;
    var r := SplitNonWord(s[1..]);
    assert SplitNonWord(s) == [[s[0]] + r[0]] + r[1..];
    assert [a[0]] + a[1..] == a;
  }

  // ---------------------------------------------------------------------------
  // Substring search

  predicate IsPrefix(p: string, s: string)
  {
    |p| <= |s| && s[..|p|] == p
  }

  /** `s.indexOf(p) !== -1`. */
  predicate Contains(s: string, p: string)
    decreases |s|
  {
    IsPrefix(p, s) || (|s| > 0 && Contains(s[1..], p))
  }

  predicate OccursAt(s: string, p: string, i: int)
  {
    0 <= i <= |s| - |p| && s[i..i + |p|] == p
  }

  /** `Contains` holds exactly when `p` occurs at some position of `s`. */
  lemma {:induction false} ContainsAt(s: string, p: string)
    ensures Contains(s, p) <==> exists i :: OccursAt(s, p, i)
  {
    if |s| > 0 {
      ContainsAt(s[1..], p);
      if Contains(s[1..], p) {
        var i :| OccursAt(s[1..], p, i);
        assert OccursAt(s, p, i + 1);
      }
      if !IsPrefix(p, s) && exists i :: OccursAt(s, p, i) {
        var i :| OccursAt(s, p, i);
        assert i != 0;
        assert OccursAt(s[1..], p, i - 1);
      }
      if IsPrefix(p, s) {
        assert OccursAt(s, p, 0);
      }
    } else {
      if exists i :: OccursAt(s, p, i) {
        var i :| OccursAt(s, p, i);
        assert IsPrefix(p, s);
      }
      if IsPrefix(p, s) {
        assert OccursAt(s, p, 0);
      }
    }
  }

  // ---------------------------------------------------------------------------
  // Digits: parseInt and toString(base)

  /** The value of `c` as a digit of `radix` (2..36), if it is one. */
  function DigitValue(c: char, radix: nat): (r: Option<nat>)
    ensures r.Some? ==> r.value < radix
  {
    var v := DigitOf(c);
    if v < radix then Some(v) else None
  }

  /** 0-9 for decimal digits, 10-35 for letters of either case, 36 for anything else. */
  function DigitOf(c: char): (v: nat)
    ensures v <= 36
  {
    if '0' <= c <= '9' then c as int - '0' as int
    else if 'a' <= c <= 'z' then c as int - 'a' as int + 10
    else if 'A' <= c <= 'Z' then c as int - 'A' as int + 10
    else 36
  }

  predicate AllDigits(s: string, radix: nat)
  {
    forall i :: 0 <= i < |s| ==> DigitValue(s[i], radix).Some?
  }

  /** The number that the digits `s` spell in `radix`, most significant first. */
  function DigitsValue(s: string, radix: nat): nat
    requires AllDigits(s, radix)
  {
    if |s| == 0 then 0
    else DigitsValue(s[..|s| - 1], radix) * radix + DigitValue(s[|s| - 1], radix).value
  }

  /** The length of the longest prefix of `s` made of digits of `radix`. */
  function DigitPrefixLength(s: string, radix: nat): (k: nat)
    ensures k <= |s| && AllDigits(s[..k], radix)
    ensures k < |s| ==> DigitValue(s[k], radix).None?
  {
    if |s| > 0 && DigitValue(s[0], radix).Some? then
      var k := 1 + DigitPrefixLength(s[1..], radix);
      assert s[..k] == [s[0]] + s[1..][..k - 1];
      k
    else 0
  }

  /** The unsigned part of parseInt after the sign: an optional 0x prefix, then the longest digit prefix. */
  function ParseMagnitude(s: string): Option<nat>
  {
    var hex := |s| >= 2 && s[0] == '0' && (s[1] == 'x' || s[1] == 'X');
    var radix := if hex then 16 else 10;
    var body := if hex then s[2..] else s;
    var k := DigitPrefixLength(body, radix);
    if k == 0 then None else Some(DigitsValue(body[..k], radix))
  }

  /**
   * `parseInt(s)` with no radix; `None` stands for NaN. Leading white space is
   * skipped, one sign is accepted, then digits are read as far as they go.
   */
  function ParseInt(s: string): Option<int>
  {
    var t := TrimStart(s);
    var negative := |t| > 0 && t[0] == '-';
    var unsigned := if |t| > 0 && (t[0] == '-' || t[0] == '+') then t[1..] else t;
    match ParseMagnitude(unsigned)
    case None => None
    case Some(m) =>
      var v: int := m;
      Some(if negative then -v else v)
  }

  /** The digit character for `d`, lower case as `toString(base)` writes it. */
  function DigitChar(d: nat): (c: char)
    requires d < 36
    ensures DigitOf(c) == d
  {
    if d < 10 then ('0' as int + d) as char else ('a' as int + d - 10) as char
  }

  lemma DivMod(n: nat, base: nat)
    requires 2 <= base <= n
    ensures n / base < n && n % base < base && n == (n / base) * base + n % base
  {
  }

  /** `n.toString(base)` for a non-negative integer `n`: digits without leading zeros. */
  function NatToDigits(n: nat, base: nat): (r: string)
    requires 2 <= base <= 36
    ensures |r| >= 1
    ensures AllDigits(r, base)
  {
    if n < base then [DigitChar(n)]
    else
      DivMod(n, base);
      var front := NatToDigits(n / base, base);
      var r := front + [DigitChar(n % base)];
      assert forall i :: 0 <= i < |front| ==> r[i] == front[i];
      r
  }

  lemma {:induction false} NatToDigitsValue(n: nat, base: nat)
    requires 2 <= base <= 36
    ensures DigitsValue(NatToDigits(n, base), base) == n
  {
    var r := NatToDigits(n, base);
    if n < base {
      assert DigitsValue(r, base) == DigitsValue(r[..0], base) * base + DigitOf(r[0]);
    } else {
      DivMod(n, base);
      NatToDigitsValue(n / base, base);
      var front := NatToDigits(n / base, base);
      assert r[..|r| - 1] == front;
      assert DigitOf(r[|r| - 1]) == n % base;
      assert DigitsValue(r, base) == DigitsValue(front, base) * base + n % base;
    }
  }

  /** Leading zeros do not change the value of a digit string. */
  lemma {:induction false} LeadingZerosValue(z: nat, s: string, radix: nat)
    requires 2 <= radix <= 36 && AllDigits(s, radix)
    ensures AllDigits(Repeat('0', z) + s, radix)
    ensures DigitsValue(Repeat('0', z) + s, radix) == DigitsValue(s, radix)
  {
    if |s| == 0 {
      assert Repeat('0', z) + s == Repeat('0', z);
      ZerosValue(z, radix);
    } else {
      var t := Repeat('0', z) + s;
      assert t[..|t| - 1] == Repeat('0', z) + s[..|s| - 1];
      LeadingZerosValue(z, s[..|s| - 1], radix);
    }
  }

  lemma {:induction false} ZerosValue(z: nat, radix: nat)
    requires 2 <= radix <= 36
    ensures AllDigits(Repeat('0', z), radix) && DigitsValue(Repeat('0', z), radix) == 0
  {
    if z > 0 {
      ZerosValue(z - 1, radix);
      assert Repeat('0', z)[..z - 1] == Repeat('0', z - 1);
    }
  }

  function Repeat(c: char, n: nat): (r: string)
    ensures |r| == n && forall i :: 0 <= i < n ==> r[i] == c
  {
    seq(n, _ => c)
  }

  /**
   * The decimal text JavaScript gives an integer below 10^21 in magnitude;
   * the exponent form it uses from 10^21 on is not modelled.
   */
  function IntToString(i: int): (r: string)
    ensures |r| >= 1
  {
    if i < 0 then "-" + NatToDigits(-i, 10) else NatToDigits(i, 10)
  }

  lemma DecimalDigitsAreDigits(n: nat)
    ensures forall i :: 0 <= i < |NatToDigits(n, 10)| ==> IsDigit(NatToDigits(n, 10)[i])
  {
    var r := NatToDigits(n, 10);
    forall i | 0 <= i < |r| ensures IsDigit(r[i]) {
      assert DigitValue(r[i], 10).Some?;
    }
  }

  /** parseInt reads back the decimal text of any integer. */
  lemma {:induction false} ParseIntRoundTrip(i: int)
    ensures ParseInt(IntToString(i)) == Some(i)
  {
    if i < 0 {
      var d := ParseNatDigits(-i);
      ParseSigned("-", d);
      assert IntToString(i) == "-" + d;
    } else {
      var d := ParseNatDigits(i);
      ParseSigned("", d);
      assert IntToString(i) == "" + d;
    }
  }

  lemma ParseNatDigits(n: nat) returns (d: string)
    ensures d == NatToDigits(n, 10)
    ensures IsDigit(d[0]) && ParseMagnitude(d) == Some(n)
  {
    d := NatToDigits(n, 10);
    DecimalDigitsAreDigits(n);
    ParseDecimalDigits(d);
    NatToDigitsValue(n, 10);
  }

  lemma ParseSigned(sign: string, d: string)
    requires sign == "" || sign == "-"
    requires |d| >= 1 && IsDigit(d[0]) && ParseMagnitude(d).Some?
    ensures ParseInt(sign + d) == Some(if sign == "-" then -(ParseMagnitude(d).value as int) else ParseMagnitude(d).value)
  {
    if sign == "-" {
      ParseNegative(d);
    } else {
      assert sign + d == d;
      ParseUnsigned(d);
    }
  }

  lemma ParseNegative(d: string)
    requires |d| >= 1 && IsDigit(d[0]) && ParseMagnitude(d).Some?
    ensures ParseInt("-" + d) == Some(-(ParseMagnitude(d).value as int))
  {
    var s := "-" + d;
    assert !IsWhiteSpace(s[0]);
    assert TrimStart(s) == s;
    assert s[1..] == d;
  }

  lemma ParseUnsigned(d: string)
    requires |d| >= 1 && IsDigit(d[0]) && ParseMagnitude(d).Some?
    ensures ParseInt(d) == Some(ParseMagnitude(d).value as int)
  {
    assert !IsWhiteSpace(d[0]);
    assert TrimStart(d) == d;
  }

  /** The magnitude of a decimal digit string is its value. */
  lemma ParseDecimalDigits(d: string)
    requires |d| >= 1 && forall i :: 0 <= i < |d| ==> IsDigit(d[i])
    ensures AllDigits(d, 10)
    ensures ParseMagnitude(d) == Some(DigitsValue(d, 10))
  {
    assert AllDigits(d, 10) by {
      forall i | 0 <= i < |d| ensures DigitValue(d[i], 10).Some? { }
    }
    assert |d| >= 2 ==> d[1] != 'x' && d[1] != 'X';
    DigitPrefixWhole(d, 10);
    assert d[..|d|] == d;
  }

  lemma {:induction false} DigitPrefixWhole(s: string, radix: nat)
    requires AllDigits(s, radix)
    ensures DigitPrefixLength(s, radix) == |s|
  {
    if |s| > 0 {
      DigitPrefixWhole(s[1..], radix);
    }
  }
}
