/**
 * Shared helpers: zero-padded number formatting, clamping, dotted version
 * comparison and keyboard-shortcut comparison.
 */
module Util {
  import opened Wrappers
  import Strings

  // ---------------------------------------------------------------------------
  // formatNumber and clamp

  /** `value.toString(base)` for an integer: a minus sign, then the digits of the magnitude. */
  function IntToStringBase(value: int, base: nat): (r: string)
    requires 2 <= base <= 36
    ensures |r| >= 1
  {
    if value < 0 then "-" + Strings.NatToDigits(-value, base) else Strings.NatToDigits(value, base)
  }

  /**
   * `formatNumber`: the last `width` characters of `width` zeros followed by
   * the digits, upper-cased. A width of 0 makes `substr(-0)` keep the whole
   * string.
   */
  function FormatNumber(value: int, base: nat, width: nat): (r: string)
    requires 2 <= base <= 36
    ensures width > 0 ==> |r| == width
    ensures width == 0 ==> r == Strings.ToUpper(IntToStringBase(value, base))
  {
    var padded := Strings.Repeat('0', width) + IntToStringBase(value, base);
    Strings.ToUpper(if width == 0 then padded else padded[|padded| - width..])
  }

  /**
   * A natural number whose digits fit is written as leading zeros and its
   * upper-case digits, and reading the result back in `base` gives the number.
   */
  lemma FormatNumberFits(value: nat, base: nat, width: nat)
    requires 2 <= base <= 36
    requires 0 < |Strings.NatToDigits(value, base)| <= width
    ensures var digits := Strings.NatToDigits(value, base);
      FormatNumber(value, base, width) == Strings.Repeat('0', width - |digits|) + Strings.ToUpper(digits)
    ensures Strings.AllDigits(FormatNumber(value, base, width), base)
    ensures Strings.DigitsValue(FormatNumber(value, base, width), base) == value
  {
    var digits := Strings.NatToDigits(value, base);
    assert IntToStringBase(value, base) == digits;
    PaddedDigits(digits, width);
    var r := Strings.Repeat('0', width - |digits|) + Strings.ToUpper(digits);
    assert FormatNumber(value, base, width) == r;
    UpperKeepsDigits(digits, base);
    Strings.NatToDigitsValue(value, base);
    Strings.LeadingZerosValue(width - |digits|, Strings.ToUpper(digits), base);
    assert Strings.DigitsValue(r, base) == Strings.DigitsValue(Strings.ToUpper(digits), base);
  }

  lemma PaddedDigits(digits: string, width: nat)
    requires |digits| <= width
    ensures var padded := Strings.Repeat('0', width) + digits;
      Strings.ToUpper(padded[|padded| - width..]) == Strings.Repeat('0', width - |digits|) + Strings.ToUpper(digits)
  {
    var padded := Strings.Repeat('0', width) + digits;
    var kept := padded[|padded| - width..];
    assert kept == Strings.Repeat('0', width - |digits|) + digits;
  }

  /** A number with more digits than `width` keeps only its `width` lowest digits. */
  lemma FormatNumberTruncates(value: nat, base: nat, width: nat)
    requires 2 <= base <= 36
    requires 0 < width < |Strings.NatToDigits(value, base)|
    ensures var digits := Strings.NatToDigits(value, base);
      FormatNumber(value, base, width) == Strings.ToUpper(digits[|digits| - width..])
  {
    var digits := Strings.NatToDigits(value, base);
    var padded := Strings.Repeat('0', width) + digits;
    assert padded[|padded| - width..] == digits[|digits| - width..];
  }

  /** Upper-casing a digit string keeps every digit's value. */
  lemma {:induction false} UpperKeepsDigits(s: string, base: nat)
    requires 2 <= base <= 36 && Strings.AllDigits(s, base)
    ensures Strings.AllDigits(Strings.ToUpper(s), base)
    ensures Strings.DigitsValue(Strings.ToUpper(s), base) == Strings.DigitsValue(s, base)
  {
    var u := Strings.ToUpper(s);
    forall i | 0 <= i < |s| ensures Strings.DigitOf(u[i]) == Strings.DigitOf(s[i]) {
    }
    assert Strings.AllDigits(u, base) by {
      forall i | 0 <= i < |u| ensures Strings.DigitValue(u[i], base).Some? {
        assert Strings.DigitOf(u[i]) == Strings.DigitOf(s[i]);
      }
    }
    if |s| > 0 {
      var front := s[..|s| - 1];
      assert Strings.AllDigits(front, base) by {
        forall i | 0 <= i < |front| ensures Strings.DigitValue(front[i], base).Some? {
          assert front[i] == s[i];
        }
      }
      UpperKeepsDigits(front, base);
      assert u[..|u| - 1] == Strings.ToUpper(front);
      assert Strings.DigitOf(u[|u| - 1]) == Strings.DigitOf(s[|s| - 1]);
    }
  }

  /** `clamp`: `min` below the range, `max` above it, the value itself otherwise. */
  function Clamp(value: int, min: int, max: int): (r: int)
    ensures min <= max ==> min <= r <= max
    ensures min <= value <= max ==> r == value
    ensures r == value || r == min || r == max
    ensures value < min ==> r == min
  {
    if value < min then min else if value > max then max else value
  }

  /** Clamping into a proper range twice is clamping once. */
  lemma ClampIdempotent(value: int, min: int, max: int)
    requires min <= max
    ensures Clamp(Clamp(value, min, max), min, max) == Clamp(value, min, max)
  {
  }

  // ---------------------------------------------------------------------------
  // compareVersions

  /** `v.split(".").map(x => parseInt(x))`, None standing for NaN. */
  function VersionParts(v: string): seq<Option<int>>
  {
    ParseParts(Strings.Split(v, '.'))
  }

  /** `pieces.map(x => parseInt(x))`. */
  function ParseParts(pieces: seq<string>): (r: seq<Option<int>>)
    ensures |r| == |pieces|
  {
    if |pieces| == 0 then [] else [Strings.ParseInt(pieces[0])] + ParseParts(pieces[1..])
  }

  /** `parts[i]`, an index past the end giving undefined, which `isNaN` accepts like NaN. */
  function PartAt(parts: seq<Option<int>>, i: nat): Option<int>
  {
    if i < |parts| then parts[i] else None
  }

  function Max(a: int, b: int): int { if a < b then b else a }

  /** The loop of `compareVersions` from index `i` on. */
  function CompareFrom(a: seq<Option<int>>, b: seq<Option<int>>, i: nat): int
    decreases Max(|a|, |b|) - i
  {
    if i >= Max(|a|, |b|) then 0
    else match (PartAt(a, i), PartAt(b, i))
      case (None, None) => 0
      case (None, Some(_)) => -1
      case (Some(_), None) => 1
      case (Some(x), Some(y)) => if x < y then -1 else if x > y then 1 else CompareFrom(a, b, i + 1)
  }

  /** `compareVersions(v1, v2)`: -1, 0 or 1. */
  function CompareVersions(v1: string, v2: string): int
  {
    CompareFrom(VersionParts(v1), VersionParts(v2), 0)
  }

  /** The loop itself, with its early returns. */
  method CompareVersionsLoop(v1: string, v2: string) returns (r: int)
    ensures r == CompareVersions(v1, v2)
  {
    var a := VersionParts(v1);
    var b := VersionParts(v2);
    var i := 0;
    while i < Max(|a|, |b|)
      invariant CompareFrom(a, b, i) == CompareFrom(a, b, 0)
      decreases Max(|a|, |b|) - i
    {
      var x := PartAt(a, i);
      var y := PartAt(b, i);
      if x.None? {
        if y.None? {
          return 0;
        }
        return -1;
      }
      if y.None? {
        return 1;
      }
      if x.value < y.value {
        return -1;
      }
      if x.value > y.value {
        return 1;
      }
      i := i + 1;
    }
    return 0;
  }

  /** The numeric parts from index `i` up to the first NaN or the end: all that the comparison looks at. */
  function NumericPrefix(parts: seq<Option<int>>, i: nat): seq<int>
    decreases |parts| - i
  {
    if i < |parts| && parts[i].Some? then [parts[i].value] + NumericPrefix(parts, i + 1) else []
  }

  /** Lexicographic comparison of integer sequences, a proper prefix being smaller. */
  function Lex(x: seq<int>, y: seq<int>): (r: int)
    ensures -1 <= r <= 1
  {
    if |x| == 0 && |y| == 0 then 0
    else if |x| == 0 then -1
    else if |y| == 0 then 1
    else if x[0] < y[0] then -1
    else if x[0] > y[0] then 1
    else Lex(x[1..], y[1..])
  }

  /** The loop compares the numeric prefixes lexicographically. */
  lemma {:induction false} CompareFromIsLex(a: seq<Option<int>>, b: seq<Option<int>>, i: nat)
    ensures CompareFrom(a, b, i) == Lex(NumericPrefix(a, i), NumericPrefix(b, i))
    decreases Max(|a|, |b|) - i
  {
    if i < Max(|a|, |b|) && PartAt(a, i).Some? && PartAt(b, i).Some? {
      CompareFromIsLex(a, b, i + 1);
      var x, y := NumericPrefix(a, i), NumericPrefix(b, i);
      assert x[1..] == NumericPrefix(a, i + 1) && y[1..] == NumericPrefix(b, i + 1);
    }
  }

  lemma {:induction false} LexEqual(x: seq<int>, y: seq<int>)
    ensures Lex(x, y) == 0 <==> x == y
  {
    if |x| > 0 && |y| > 0 && x[0] == y[0] {
      LexEqual(x[1..], y[1..]);
      assert x == [x[0]] + x[1..] && y == [y[0]] + y[1..];
    }
  }

  lemma {:induction false} LexAntisymmetric(x: seq<int>, y: seq<int>)
    ensures Lex(y, x) == -Lex(x, y)
  {
    if |x| > 0 && |y| > 0 && x[0] == y[0] {
      LexAntisymmetric(x[1..], y[1..]);
    }
  }

  lemma {:induction false} LexTransitive(x: seq<int>, y: seq<int>, z: seq<int>)
    requires Lex(x, y) <= 0 && Lex(y, z) <= 0
    ensures Lex(x, z) <= 0
    ensures Lex(x, y) < 0 || Lex(y, z) < 0 ==> Lex(x, z) < 0
  {
    if |x| > 0 && |y| > 0 && |z| > 0 && x[0] == y[0] && y[0] == z[0] {
      LexTransitive(x[1..], y[1..], z[1..]);
    }
  }

  /** Every version compares equal to itself. */
  lemma CompareVersionsReflexive(v: string)
    ensures CompareVersions(v, v) == 0
  {
    var p := VersionParts(v);
    CompareFromIsLex(p, p, 0);
    LexEqual(NumericPrefix(p, 0), NumericPrefix(p, 0));
  }

  /** Swapping the arguments negates the result; the result is -1, 0 or 1. */
  lemma CompareVersionsAntisymmetric(v1: string, v2: string)
    ensures CompareVersions(v2, v1) == -CompareVersions(v1, v2)
    ensures -1 <= CompareVersions(v1, v2) <= 1
  {
    var a, b := VersionParts(v1), VersionParts(v2);
    CompareFromIsLex(a, b, 0);
    CompareFromIsLex(b, a, 0);
    LexAntisymmetric(NumericPrefix(a, 0), NumericPrefix(b, 0));
  }

  /** "Not greater" is transitive, and strictly so when either step is strict. */
  lemma CompareVersionsTransitive(v1: string, v2: string, v3: string)
    requires CompareVersions(v1, v2) <= 0 && CompareVersions(v2, v3) <= 0
    ensures CompareVersions(v1, v3) <= 0
    ensures CompareVersions(v1, v2) < 0 || CompareVersions(v2, v3) < 0 ==> CompareVersions(v1, v3) < 0
  {
    var a, b, c := VersionParts(v1), VersionParts(v2), VersionParts(v3);
    CompareFromIsLex(a, b, 0);
    CompareFromIsLex(b, c, 0);
    CompareFromIsLex(a, c, 0);
    LexTransitive(NumericPrefix(a, 0), NumericPrefix(b, 0), NumericPrefix(c, 0));
  }

  /** Parts equal up to `i` leave the decision to index `i`. */
  lemma {:induction false} CompareSkipsEqualParts(a: seq<Option<int>>, b: seq<Option<int>>, i: nat)
    requires forall j :: 0 <= j < i ==> PartAt(a, j).Some? && PartAt(a, j) == PartAt(b, j)
    ensures CompareFrom(a, b, 0) == CompareFrom(a, b, i)
  {
    if i > 0 {
      CompareSkipsEqualParts(a, b, i - 1);
      assert PartAt(a, i - 1).Some? && PartAt(b, i - 1).Some?;
      assert i - 1 < Max(|a|, |b|);
    }
  }

  /**
   * At the first index where the parts are not equal numbers, a missing or
   * non-numeric part on one side only makes that side the smaller, on both
   * sides the versions compare equal, and otherwise the numbers decide.
   */
  lemma FirstDifferenceDecides(v1: string, v2: string, i: nat)
    requires var a, b := VersionParts(v1), VersionParts(v2);
      forall j :: 0 <= j < i ==> PartAt(a, j).Some? && PartAt(a, j) == PartAt(b, j)
    ensures var x, y := PartAt(VersionParts(v1), i), PartAt(VersionParts(v2), i);
      CompareVersions(v1, v2) ==
        if x.None? && y.None? then 0
        else if x.None? then -1
        else if y.None? then 1
        else if x.value < y.value then -1
        else if x.value > y.value then 1
        else CompareFrom(VersionParts(v1), VersionParts(v2), i + 1)
  {
    CompareSkipsEqualParts(VersionParts(v1), VersionParts(v2), i);
  }

  // ---------------------------------------------------------------------------
  // Keybindings

  /** `keybinding.toLowerCase().split("+")`. */
  function KeyParts(keybinding: string): seq<string>
  {
    Strings.Split(Strings.ToLower(keybinding), '+')
  }

  /** `keybindingEqual`: as many parts, and each part of the first occurs among the second's. */
  predicate KeybindingEqual(k1: string, k2: string)
  {
    var p1, p2 := KeyParts(k1), KeyParts(k2);
    |p1| == |p2| && forall i :: 0 <= i < |p1| ==> p1[i] in p2
  }

  /** The loop itself, with its early returns. */
  method KeybindingEqualLoop(k1: string, k2: string) returns (r: bool)
    ensures r == KeybindingEqual(k1, k2)
  {
    var p1 := KeyParts(k1);
    var p2 := KeyParts(k2);
    if |p1| != |p2| {
      return false;
    }
    var i := 0;
    while i < |p1|
      invariant 0 <= i <= |p1|
      invariant forall j :: 0 <= j < i ==> p1[j] in p2
    {
      if p1[i] !in p2 {
        return false;
      }
      i := i + 1;
    }
    return true;
  }

  /** The case of ASCII letters does not matter on either side. */
  lemma KeybindingCaseInsensitive(k1: string, k2: string)
    ensures KeybindingEqual(Strings.ToUpper(k1), k2) == KeybindingEqual(k1, k2)
    ensures KeybindingEqual(k1, Strings.ToUpper(k2)) == KeybindingEqual(k1, k2)
  {
    Strings.LowerOfUpper(k1);
    Strings.LowerOfUpper(k2);
  }

  /** Every keybinding equals itself. */
  lemma KeybindingReflexive(k: string)
    ensures KeybindingEqual(k, k)
  {
    var p := KeyParts(k);
    forall i | 0 <= i < |p| ensures p[i] in p {
    }
  }

  /** With a repeated part the comparison is not symmetric: "a+a" matches "a+b", but not the reverse. */
  lemma KeybindingNotSymmetric()
    ensures KeybindingEqual("a+a", "a+b") && !KeybindingEqual("a+b", "a+a")
  {
    assert Strings.ToLower("a+a") == "a+a";
    assert Strings.ToLower("a+b") == "a+b";
    SplitPair('a', 'a');
    SplitPair('a', 'b');
    var aa, ab := KeyParts("a+a"), KeyParts("a+b");
    assert aa == ["a", "a"] && ab == ["a", "b"];
    assert ab[0] in aa && aa[1] in ab;
    assert ab[1] == "b" && "b" != "a";
    assert ab[1] !in aa;
  }

  lemma SplitPair(x: char, y: char)
    requires x != '+' && y != '+'
    ensures Strings.Split([x, '+', y], '+') == [[x], [y]]
  {
    var u: string := [y];
    assert u[1..] == [];
    var empty := Strings.Split(u[1..], '+');
    assert empty == [""];
    assert [u[0]] + empty[0] == [y] && empty[1..] == [];
    assert Strings.Split(u, '+') == [[y]];
    var t: string := ['+', y];
    assert t[1..] == u;
    assert Strings.Split(t, '+') == [""] + [[y]];
    var s: string := [x, '+', y];
    assert s[1..] == t;
    var rest := Strings.Split(s[1..], '+');
    assert rest == ["", [y]];
    assert [s[0]] + rest[0] == [x] && rest[1..] == [[y]];
    assert Strings.Split(s, '+') == [[x]] + [[y]];
  }

  /** `isReserverdKeybinding`, with the reserved list (obtained from the main process) as a parameter. */
  method IsReservedKeybinding(keybinding: string, reserved: seq<string>) returns (r: bool)
    ensures r <==> exists i :: 0 <= i < |reserved| && KeybindingEqual(keybinding, reserved[i])
  {
    var i := 0;
    while i < |reserved|
      invariant 0 <= i <= |reserved|
      invariant forall j :: 0 <= j < i ==> !KeybindingEqual(keybinding, reserved[j])
    {
      var equal := KeybindingEqualLoop(keybinding, reserved[i]);
      if equal {
        return true;
      }
      i := i + 1;
    }
    return false;
  }
}
