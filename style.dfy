/**
 * Styles: the CSS-like rectangle syntax of border sizes, paddings and
 * margins (`Style.getRect`), property inheritance along `inheritFrom`
 * chains, the legacy padding migration on load, and the style check rules.
 */
module Styles {
  import opened Wrappers
  import opened JsValues
  import Strings

  // ---------------------------------------------------------------------------
  // getRect

  /** What `getRect` is given: undefined, a number (possibly not finite), a string, or anything else. */
  datatype RectValue = Missing | Number(n: int) | NonFinite | Text(s: string) | OtherType

  datatype Rect = Rect(top: int, right: int, bottom: int, left: int)

  const ZERO_RECT := Rect(0, 0, 0, 0)

  /** The subject of a message about one part: nothing for a single value, `"tag" ` otherwise. */
  function Subject(tag: string): string
  {
    if tag == "" then "" else "\"" + tag + "\" "
  }

  /** The test each part of a string goes through: a number, at least 0, at most 255. */
  function PartCheck(tag: string, p: Option<int>): (r: Result<int, string>)
    ensures r.Ok? <==> p.Some? && 0 <= p.value <= 255
    ensures r.Ok? ==> r.value == p.value
  {
    if p.None? then Err(Subject(tag) + "value is not a valid number")
    else if p.value < 0 || p.value > 255 then Err(Subject(tag) + "value must be >= 0 && <= 255")
    else Ok(p.value)
  }

  /**
   * The test a number goes through (`None` stands for a value that is not
   * finite). As written, the message for a negative number gives the upper
   * bound as 25.
   */
  function NumberCheck(mode: Mode, p: Option<int>): (r: Result<int, string>)
    ensures r.Ok? <==> p.Some? && 0 <= p.value <= 255
  {
    if p.None? then Err("value is not a valid number")
    else if p.value < 0 then
      Err(if mode.AsWritten? then "value must be >= 0 && <= 25" else "value must be >= 0 && <= 255")
    else if p.value > 255 then Err("value must be >= 0 && <= 255")
    else Ok(p.value)
  }

  /** The labels of the parts of a string with `k` parts, in order. */
  function Labels(k: nat): (r: seq<string>)
    requires 1 <= k <= 4
    ensures |r| == k
  {
    if k == 1 then [""]
    else if k == 2 then ["top/bottom", "right/left"]
    else if k == 3 then ["top/left", "right", "bottom"]
    else ["top", "right", "bottom", "left"]
  }

  /**
   * Which part sets each side (0 top, 1 right, 2 bottom, 3 left): one part
   * sets all four, two set top/bottom then right/left, three set top/left,
   * right, bottom, four set top, right, bottom, left.
   */
  function Controller(k: nat, side: nat): (r: nat)
    requires 1 <= k <= 4 && side < 4
    ensures r < k
  {
    if k == 1 then 0
    else if k == 2 then side % 2
    else if k == 3 then (if side == 3 then 0 else side)
    else side
  }

  /** The checks of the parts of a string, in order. */
  function PartChecks(parts: seq<string>): (r: seq<Result<int, string>>)
    requires 1 <= |parts| <= 4
    ensures |r| == |parts|
    ensures forall i :: 0 <= i < |parts| ==> r[i] == PartCheck(Labels(|parts|)[i], Strings.ParseInt(parts[i]))
  {
    seq(|parts|, i requires 0 <= i < |parts| => PartCheck(Labels(|parts|)[i], Strings.ParseInt(parts[i])))
  }

  /** Check `i` is the last of the first `n` checks that fails. */
  predicate LastFailure(checks: seq<Result<int, string>>, n: nat, i: nat)
    requires n <= |checks|
  {
    i < n && checks[i].Err? && forall j :: i < j < n ==> checks[j].Ok?
  }

  /** The message of the last of the first `n` checks that fails, as each failure overwrites `error`. */
  function LastError(checks: seq<Result<int, string>>, n: nat): (r: Option<string>)
    requires n <= |checks|
    ensures r.None? <==> forall i :: 0 <= i < n ==> checks[i].Ok?
    ensures r.Some? ==> exists i: nat :: LastFailure(checks, n, i) && checks[i] == Err(r.value)
  {
    if n == 0 then None
    else if checks[n - 1].Err? then
      assert LastFailure(checks, n, n - 1);
      Some(checks[n - 1].error)
    else
      LastFailureExtends(checks, n);
      LastError(checks, n - 1)
  }

  lemma LastFailureExtends(checks: seq<Result<int, string>>, n: nat)
    requires 1 <= n <= |checks| && checks[n - 1].Ok?
    ensures forall i: nat :: LastFailure(checks, n - 1, i) ==> LastFailure(checks, n, i)
  {
  }

  /** A side takes the value of the part that sets it, or stays 0 when that part fails. */
  function SideOf(checks: seq<Result<int, string>>, i: nat): int
    requires i < |checks|
  {
    if checks[i].Ok? then checks[i].value else 0
  }

  /** The rectangle the checked parts give, each side from the part that sets it. */
  function PartsRect(checks: seq<Result<int, string>>): Rect
    requires 1 <= |checks| <= 4
  {
    var k := |checks|;
    Rect(SideOf(checks, Controller(k, 0)), SideOf(checks, Controller(k, 1)),
         SideOf(checks, Controller(k, 2)), SideOf(checks, Controller(k, 3)))
  }

  /** Side 0 top, 1 right, 2 bottom, 3 left. */
  function SideValue(r: Rect, side: nat): int
  {
    if side == 0 then r.top else if side == 1 then r.right else if side == 2 then r.bottom else r.left
  }

  /** The pieces `value.trim().split(/\W+/)` gives. */
  function Pieces(s: string): seq<string>
  {
    Strings.SplitNonWord(Strings.Trim(s))
  }

  /** What `getRect` returns, stated per part rather than step by step. */
  function RectOf(mode: Mode, value: RectValue): (Option<string>, Rect)
  {
    match value
    case Missing => (None, ZERO_RECT)
    case Number(n) =>
      var c := NumberCheck(mode, Some(n));
      if c.Err? then (Some(c.error), ZERO_RECT) else (None, Rect(n, n, n, n))
    case NonFinite => (Some(NumberCheck(mode, None).error), ZERO_RECT)
    case Text(s) => PartsResult(Pieces(s))
    case OtherType => (Some("invalid value type"), ZERO_RECT)
  }

  /** What `getRect` returns for a string with these pieces: one to four parts, or "invalid value". */
  function PartsResult(parts: seq<string>): (Option<string>, Rect)
  {
    if 1 <= |parts| <= 4 then
      var checks := PartChecks(parts);
      (LastError(checks, |checks|), PartsRect(checks))
    else (Some("invalid value"), ZERO_RECT)
  }

  /** The string branch of `getRect`, one assignment per part as the source writes it. */
  method RectFromParts(x: seq<string>) returns (error: Option<string>, top: int, right: int, bottom: int, left: int)
    requires 1 <= |x| <= 4
    ensures error == LastError(PartChecks(x), |x|)
    ensures Rect(top, right, bottom, left) == PartsRect(PartChecks(x))
  {
    ghost var checks := PartChecks(x);
    error := None;
    top, right, bottom, left := 0, 0, 0, 0;
    if |x| == 1 {
      var c := PartCheck("", Strings.ParseInt(x[0]));
      assert c == checks[0];
      if c.Err? { error := Some(c.error); } else { top, right, bottom, left := c.value, c.value, c.value, c.value; }
    } else if |x| == 2 {
      var c0 := PartCheck("top/bottom", Strings.ParseInt(x[0]));
      if c0.Err? { error := Some(c0.error); } else { top, bottom := c0.value, c0.value; }
      var c1 := PartCheck("right/left", Strings.ParseInt(x[1]));
      if c1.Err? { error := Some(c1.error); } else { right, left := c1.value, c1.value; }
      assert c0 == checks[0] && c1 == checks[1];
    } else if |x| == 3 {
      var c0 := PartCheck("top/left", Strings.ParseInt(x[0]));
      if c0.Err? { error := Some(c0.error); } else { top, left := c0.value, c0.value; }
      var c1 := PartCheck("right", Strings.ParseInt(x[1]));
      if c1.Err? { error := Some(c1.error); } else { right := c1.value; }
      var c2 := PartCheck("bottom", Strings.ParseInt(x[2]));
      if c2.Err? { error := Some(c2.error); } else { bottom := c2.value; }
      assert c0 == checks[0] && c1 == checks[1] && c2 == checks[2];
    } else {
      var c0 := PartCheck("top", Strings.ParseInt(x[0]));
      if c0.Err? { error := Some(c0.error); } else { top := c0.value; }
      var c1 := PartCheck("right", Strings.ParseInt(x[1]));
      if c1.Err? { error := Some(c1.error); } else { right := c1.value; }
      var c2 := PartCheck("bottom", Strings.ParseInt(x[2]));
      if c2.Err? { error := Some(c2.error); } else { bottom := c2.value; }
      var c3 := PartCheck("left", Strings.ParseInt(x[3]));
      if c3.Err? { error := Some(c3.error); } else { left := c3.value; }
      assert c0 == checks[0] && c1 == checks[1] && c2 == checks[2] && c3 == checks[3];
    }
  }

  /** `Style.getRect`. */
  method GetRect(mode: Mode, value: RectValue) returns (error: Option<string>, rect: Rect)
    ensures (error, rect) == RectOf(mode, value)
  {
    error := None;
    var top, right, bottom, left := 0, 0, 0, 0;
    match value {
      case Missing =>
      case Number(n) =>
        var c := NumberCheck(mode, Some(n));
        if c.Err? {
          error := Some(c.error);
        } else {
          top, right, bottom, left := n, n, n, n;
        }
      case NonFinite =>
        error := Some(NumberCheck(mode, None).error);
      case Text(s) =>
        var x := Pieces(s);
        if 1 <= |x| <= 4 {
          error, top, right, bottom, left := RectFromParts(x);
        } else {
          error := Some("invalid value");
        }
      case OtherType =>
        error := Some("invalid value type");
    }
    rect := Rect(top, right, bottom, left);
  }

  /** No value: no error and an all-zero rectangle. */
  lemma RectOfMissing(mode: Mode)
    ensures RectOf(mode, Missing) == (None, ZERO_RECT)
  {
  }

  /** A number in [0, 255] sets all four sides; any other number is an error and leaves all sides 0. */
  lemma RectOfNumber(mode: Mode, n: int)
    ensures 0 <= n <= 255 ==> RectOf(mode, Number(n)) == (None, Rect(n, n, n, n))
    ensures !(0 <= n <= 255) ==> RectOf(mode, Number(n)).0.Some? && RectOf(mode, Number(n)).1 == ZERO_RECT
  {
  }

  /** When every part is a number in range there is no error and each side is the part that sets it. */
  lemma GoodPartsSetSides(parts: seq<string>)
    requires 1 <= |parts| <= 4
    requires forall i :: 0 <= i < |parts| ==>
      Strings.ParseInt(parts[i]).Some? && 0 <= Strings.ParseInt(parts[i]).value <= 255
    ensures PartsResult(parts).0.None?
    ensures forall side: nat :: side < 4 ==>
      SideValue(PartsResult(parts).1, side) == Strings.ParseInt(parts[Controller(|parts|, side)]).value
  {
    var checks := PartChecks(parts);
    forall i | 0 <= i < |checks| ensures checks[i].Ok? && checks[i].value == Strings.ParseInt(parts[i]).value {
    }
    AllPartsGood(checks);
  }

  lemma AllPartsGood(checks: seq<Result<int, string>>)
    requires 1 <= |checks| <= 4 && forall i :: 0 <= i < |checks| ==> checks[i].Ok?
    ensures LastError(checks, |checks|).None?
    ensures forall side: nat :: side < 4 ==> SideValue(PartsRect(checks), side) == checks[Controller(|checks|, side)].value
  {
  }

  /** A failing part is reported, and leaves every side it sets at 0 whatever the other parts are. */
  lemma FailingPartLeavesZero(checks: seq<Result<int, string>>, side: nat)
    requires 1 <= |checks| <= 4 && side < 4 && checks[Controller(|checks|, side)].Err?
    ensures SideValue(PartsRect(checks), side) == 0
    ensures LastError(checks, |checks|).Some?
  {
  }

  /** With several failing parts, the message is the last one's. */
  lemma LastFailureReported(parts: seq<string>, i: nat)
    requires 1 <= |parts| <= 4 && LastFailure(PartChecks(parts), |parts|, i)
    ensures PartsResult(parts).0 == Some(PartChecks(parts)[i].error)
  {
    LastErrorIsLast(PartChecks(parts), i, |parts|);
  }

  lemma LastErrorIsLast(checks: seq<Result<int, string>>, i: nat, n: nat)
    requires n <= |checks| && LastFailure(checks, n, i)
    ensures LastError(checks, n) == Some(checks[i].error)
  {
    var r := LastError(checks, n);
    assert !checks[i].Ok?;
    var j: nat :| LastFailure(checks, n, j) && checks[j] == Err(r.value);
    LastFailureUnique(checks, n, i, j);
  }

  /** At most one check is the last failure. */
  lemma LastFailureUnique(checks: seq<Result<int, string>>, n: nat, i: nat, j: nat)
    requires n <= |checks| && LastFailure(checks, n, i) && LastFailure(checks, n, j)
    ensures i == j
  {
  }

  /** The pieces of a string hold word characters only. */
  lemma {:induction false} PiecesAreWords(s: string)
    ensures forall i :: 0 <= i < |Strings.SplitNonWord(s)| ==> Strings.AllWord(Strings.SplitNonWord(s)[i])
    decreases |s|
  {
    if |s| > 0 {
      if Strings.IsWordChar(s[0]) {
        PiecesAreWords(s[1..]);
        var rest := Strings.SplitNonWord(s[1..]);
        assert ([s[0]] + rest[0])[1..] == rest[0];
      } else {
        PiecesAreWords(Strings.DropNonWord(s));
      }
    }
  }

  /**
   * No part of a string parses to a negative number, so for strings the
   * "must be >= 0" messages come only from numbers above 255.
   */
  lemma StringPartsNotNegative(s: string, i: nat)
    requires i < |Pieces(s)|
    ensures Strings.ParseInt(Pieces(s)[i]).Some? ==> Strings.ParseInt(Pieces(s)[i]).value >= 0
  {
    var w := Pieces(s)[i];
    PiecesAreWords(Strings.Trim(s));
    assert |w| > 0 ==> !Strings.IsWhiteSpace(w[0]) && w[0] != '-' && w[0] != '+';
    assert Strings.TrimStart(w) == w;
  }

  /**
   * As written, the message for a negative number names 25 as the upper
   * bound, although 100 is accepted; the repaired message is the one the
   * single-part string form gives.
   */
  lemma NegativeNumberMessage()
    ensures RectOf(AsWritten, Number(-1)).0 == Some("value must be >= 0 && <= 25")
    ensures RectOf(AsWritten, Number(100)) == (None, Rect(100, 100, 100, 100))
    ensures RectOf(Corrected, Number(-1)).0 == Some("value must be >= 0 && <= 255")
  {
  }

  /** Repaired, a number is checked exactly as a single-part string is. */
  lemma CorrectedNumberCheck(p: Option<int>)
    ensures NumberCheck(Corrected, p) == PartCheck("", p)
  {
    assert Subject("") == "";
    assert "" + "value is not a valid number" == "value is not a valid number";
    assert "" + "value must be >= 0 && <= 255" == "value must be >= 0 && <= 255";
  }

  // ---------------------------------------------------------------------------
  // Inheritance

  /** A style as inheritance sees it: its name, the style it inherits from ("" for none), and its own properties. */
  datatype Style = Style(name: string, id: Option<int>, inheritFrom: string, props: map<string, Value>)

  /**
   * `getProperty`: the style's own value, undefined when it sets none; the
   * name, id and `inheritFrom` are read from their own fields.
   */
  function GetProperty(style: Style, prop: string): Value
  {
    if prop == "name" then Str(style.name)
    else if prop == "id" then (if style.id.Some? then Num(style.id.value) else Undefined)
    else if prop == "inheritFrom" then (if style.inheritFrom != "" then Str(style.inheritFrom) else Undefined)
    else if prop in style.props then style.props[prop] else Undefined
  }

  predicate Defines(style: Style, prop: string)
  {
    GetProperty(style, prop) != Undefined
  }

  /** `findStyle`: the first style with the name. */
  function FindStyle(styles: seq<Style>, name: string): (r: Option<nat>)
    ensures r.Some? ==> r.value < |styles| && styles[r.value].name == name
    ensures r.None? ==> forall i :: 0 <= i < |styles| ==> styles[i].name != name
  {
    if |styles| == 0 then None
    else if styles[|styles| - 1].name == name && FindStyle(styles[..|styles| - 1], name).None? then Some(|styles| - 1)
    else
      var r := FindStyle(styles[..|styles| - 1], name);
      assert forall i :: 0 <= i < |styles| - 1 ==> styles[..|styles| - 1][i] == styles[i];
      r
  }

  /** The style a style inherits from, if it names one that exists. */
  function Parent(styles: seq<Style>, i: nat): (r: Option<nat>)
    requires i < |styles|
    ensures r.Some? ==> r.value < |styles|
  {
    if styles[i].inheritFrom != "" then FindStyle(styles, styles[i].inheritFrom) else None
  }

  lemma {:induction false} RangeCardinality(visited: set<nat>, n: nat)
    requires forall x :: x in visited ==> x < n
    ensures |visited| <= n
  {
    if n > 0 {
      RangeCardinality(visited - {n - 1}, n - 1);
    } else {
      assert visited == {};
    }
  }

  /**
   * `getInheritedValue` without the colour translation: the value and the
   * style it comes from, or None once the chain ends or comes back to a
   * style already visited.
   */
  function InheritedFrom(styles: seq<Style>, i: nat, prop: string, visited: set<nat>): (r: Option<(Value, nat)>)
    requires i < |styles| && forall x :: x in visited ==> x < |styles|
    ensures r.Some? ==> r.value.1 < |styles| && Defines(styles[r.value.1], prop) && r.value.0 == GetProperty(styles[r.value.1], prop)
    decreases |styles| - |visited|
  {
    if i in visited then None
    else if Defines(styles[i], prop) then Some((GetProperty(styles[i], prop), i))
    else match Parent(styles, i)
      case None => None
      case Some(j) =>
        RangeCardinality(visited + {i}, |styles|);
        InheritedFrom(styles, j, prop, visited + {i})
  }

  // The inheritance graph, apart from names and properties: `links[i]` is
  // the style style `i` inherits from, `defined` the styles that set the
  // property looked up.

  /** Every link points at a style. */
  predicate Closed(links: seq<Option<nat>>)
  {
    forall i :: 0 <= i < |links| && links[i].Some? ==> links[i].value < |links|
  }

  /** The inheritance links of the styles. */
  function Links(styles: seq<Style>): (r: seq<Option<nat>>)
    ensures |r| == |styles| && Closed(r)
    ensures forall i :: 0 <= i < |styles| ==> r[i] == Parent(styles, i)
  {
    seq(|styles|, i requires 0 <= i < |styles| => Parent(styles, i))
  }

  /** The styles that define `prop` themselves. */
  function Defining(styles: seq<Style>, prop: string): (r: set<nat>)
    ensures forall k: nat :: k in r <==> k < |styles| && Defines(styles[k], prop)
  {
    set k: nat | k < |styles| && Defines(styles[k], prop)
  }

  /** The `n`-th style along the chain from `s`, if the chain is that long. */
  function Reach(links: seq<Option<nat>>, s: nat, n: nat): (r: Option<nat>)
    requires Closed(links) && s < |links|
    ensures r.Some? ==> r.value < |links|
  {
    if n == 0 then Some(s)
    else match Reach(links, s, n - 1)
      case None => None
      case Some(c) => links[c]
  }

  /** The walk `getInheritedValue` makes, on the graph alone: the first defining style it meets. */
  function Walk(links: seq<Option<nat>>, defined: set<nat>, i: nat, visited: set<nat>): (r: Option<nat>)
    requires Closed(links) && i < |links| && forall x :: x in visited ==> x < |links|
    ensures r.Some? ==> r.value < |links| && r.value in defined
    decreases |links| - |visited|
  {
    if i in visited then None
    else if i in defined then Some(i)
    else match links[i]
      case None => None
      case Some(j) =>
        RangeCardinality(visited + {i}, |links|);
        Walk(links, defined, j, visited + {i})
  }

  /** `getInheritedValue` is that walk, reading the value at the style where it stops. */
  lemma {:induction false} InheritedFromIsWalk(styles: seq<Style>, i: nat, prop: string, visited: set<nat>)
    requires i < |styles| && forall x :: x in visited ==> x < |styles|
    ensures var w := Walk(Links(styles), Defining(styles, prop), i, visited);
      InheritedFrom(styles, i, prop, visited) == if w.None? then None else Some((GetProperty(styles[w.value], prop), w.value))
    decreases |styles| - |visited|
  {
    if i !in visited && !Defines(styles[i], prop) && Parent(styles, i).Some? {
      RangeCardinality(visited + {i}, |styles|);
      InheritedFromIsWalk(styles, Parent(styles, i).value, prop, visited + {i});
    }
  }

  /** Past the end of a chain there is nothing. */
  lemma {:induction false} ReachEnds(links: seq<Option<nat>>, s: nat, n: nat, t: nat)
    requires Closed(links) && s < |links| && Reach(links, s, n).None? && t >= n
    ensures Reach(links, s, t).None?
    decreases t - n
  {
    if t > n {
      ReachEnds(links, s, n, t - 1);
    }
  }

  /** When the chain comes back from step `n` to step `m`, it repeats with period `n - m`. */
  lemma {:induction false} ReachRepeats(links: seq<Option<nat>>, s: nat, m: nat, n: nat, t: nat)
    requires Closed(links) && s < |links| && m < n && Reach(links, s, m) == Reach(links, s, n) && t >= n
    ensures Reach(links, s, t) == Reach(links, s, t - (n - m))
    decreases t - n
  {
    if t > n {
      ReachRepeats(links, s, m, n, t - 1);
    }
  }

  /** On a chain that comes back, every style along it is among the first `n`. */
  lemma {:induction false} CycleStaysInPrefix(links: seq<Option<nat>>, s: nat, m: nat, n: nat, t: nat)
    requires Closed(links) && s < |links| && m < n && Reach(links, s, m).Some? && Reach(links, s, m) == Reach(links, s, n)
    ensures exists q :: 0 <= q < n && Reach(links, s, t) == Reach(links, s, q)
    decreases t
  {
    if t < n {
      assert Reach(links, s, t) == Reach(links, s, t);
    } else {
      ReachRepeats(links, s, m, n, t);
      CycleStaysInPrefix(links, s, m, n, t - (n - m));
      var q :| 0 <= q < n && Reach(links, s, t - (n - m)) == Reach(links, s, q);
      assert Reach(links, s, t) == Reach(links, s, q);
    }
  }

  /** The styles among the first `n` steps of the chain from `s`. */
  ghost function PrefixSet(links: seq<Option<nat>>, s: nat, n: nat): set<nat>
    requires Closed(links) && s < |links|
  {
    if n == 0 then {}
    else PrefixSet(links, s, n - 1) + (if Reach(links, s, n - 1).Some? then {Reach(links, s, n - 1).value} else {})
  }

  lemma {:induction false} InPrefixSet(links: seq<Option<nat>>, s: nat, n: nat, x: nat)
    requires Closed(links) && s < |links| && x in PrefixSet(links, s, n)
    ensures exists m :: 0 <= m < n && Reach(links, s, m) == Some(x)
  {
    if x in PrefixSet(links, s, n - 1) {
      InPrefixSet(links, s, n - 1, x);
      var m :| 0 <= m < n - 1 && Reach(links, s, m) == Some(x);
      assert 0 <= m < n;
    } else {
      assert Reach(links, s, n - 1) == Some(x);
    }
  }

  /** The first `n` styles of the chain from `s` exist, none is in `defined`, and `visited` holds exactly them. */
  ghost predicate VisitedPrefix(links: seq<Option<nat>>, defined: set<nat>, s: nat, n: nat, visited: set<nat>)
    requires Closed(links) && s < |links|
  {
    (forall m :: 0 <= m < n ==> Reach(links, s, m).Some? && Reach(links, s, m).value !in defined) &&
    visited == PrefixSet(links, s, n)
  }

  /** Some style on the chain from `s` is in `defined`. */
  ghost predicate ChainMeets(links: seq<Option<nat>>, defined: set<nat>, s: nat)
    requires Closed(links) && s < |links|
  {
    exists t: nat :: Reach(links, s, t).Some? && Reach(links, s, t).value in defined
  }

  /** Style `k`, at step `t` of the chain, is the first on it in `defined`. */
  ghost predicate FirstMet(links: seq<Option<nat>>, defined: set<nat>, s: nat, t: nat, k: nat)
    requires Closed(links) && s < |links|
  {
    Reach(links, s, t) == Some(k) && k in defined &&
    forall m :: 0 <= m < t ==> Reach(links, s, m).Some? && Reach(links, s, m).value !in defined
  }

  /** When the chain comes back to a visited style, no style on it is in `defined`. */
  lemma CycleMeetsNothing(links: seq<Option<nat>>, defined: set<nat>, s: nat, n: nat, visited: set<nat>)
    requires Closed(links) && s < |links| && Reach(links, s, n).Some? && Reach(links, s, n).value in visited
    requires VisitedPrefix(links, defined, s, n, visited)
    ensures !ChainMeets(links, defined, s)
  {
    var c := Reach(links, s, n).value;
    InPrefixSet(links, s, n, c);
    var m :| 0 <= m < n && Reach(links, s, m) == Some(c);
    forall t: nat | Reach(links, s, t).Some? ensures Reach(links, s, t).value !in defined {
      CycleStaysInPrefix(links, s, m, n, t);
    }
  }

  /** When the chain ends at a style not in `defined`, no style on it is. */
  lemma EndMeetsNothing(links: seq<Option<nat>>, defined: set<nat>, s: nat, n: nat, visited: set<nat>)
    requires Closed(links) && s < |links| && Reach(links, s, n).Some?
    requires Reach(links, s, n).value !in defined && links[Reach(links, s, n).value].None?
    requires VisitedPrefix(links, defined, s, n, visited)
    ensures !ChainMeets(links, defined, s)
  {
    forall t: nat | Reach(links, s, t).Some? ensures Reach(links, s, t).value !in defined {
      if t > n {
        assert Reach(links, s, n + 1).None?;
        ReachEnds(links, s, n + 1, t);
      }
    }
  }

  lemma {:induction false} WalkFollowsChain(links: seq<Option<nat>>, defined: set<nat>, s: nat, n: nat, visited: set<nat>)
    requires Closed(links) && s < |links| && Reach(links, s, n).Some?
    requires forall x :: x in visited ==> x < |links|
    requires VisitedPrefix(links, defined, s, n, visited)
    ensures var w := Walk(links, defined, Reach(links, s, n).value, visited);
      (w.None? <==> !ChainMeets(links, defined, s)) &&
      (w.Some? ==> exists t: nat :: FirstMet(links, defined, s, t, w.value))
    decreases |links| - |visited|
  {
    var c := Reach(links, s, n).value;
    if c in visited {
      CycleMeetsNothing(links, defined, s, n, visited);
    } else if c in defined {
      assert FirstMet(links, defined, s, n, c);
    } else if links[c].None? {
      EndMeetsNothing(links, defined, s, n, visited);
    } else {
      var visited' := visited + {c};
      RangeCardinality(visited', |links|);
      assert Reach(links, s, n + 1) == links[c];
      WalkFollowsChain(links, defined, s, n + 1, visited');
    }
  }

  /**
   * Starting with nothing visited, the inherited value comes from the first
   * style along the `inheritFrom` chain that defines the property, and there
   * is none exactly when no style on the chain defines it, cyclic chains
   * included.
   */
  lemma InheritedIsFirstOnChain(styles: seq<Style>, s: nat, prop: string)
    requires s < |styles|
    ensures var r := InheritedFrom(styles, s, prop, {});
      (r.None? <==> !ChainMeets(Links(styles), Defining(styles, prop), s)) &&
      (r.Some? ==> exists t: nat :: FirstMet(Links(styles), Defining(styles, prop), s, t, r.value.1))
  {
    InheritedFromIsWalk(styles, s, prop, {});
    WalkFollowsChain(Links(styles), Defining(styles, prop), s, 0, {});
  }

  /** A style that inherits from itself and does not define the property gives undefined. */
  lemma SelfCycleUndefined(styles: seq<Style>, s: nat, prop: string)
    requires s < |styles| && !Defines(styles[s], prop) && Parent(styles, s) == Some(s)
    ensures InheritedFrom(styles, s, prop, {}) == None
  {
    assert InheritedFrom(styles, s, prop, {}) == InheritedFrom(styles, s, prop, {s});
  }

  /** The seven colour properties whose inherited value goes through the theme. */
  predicate IsColorProperty(prop: string)
  {
    prop == "color" || prop == "backgroundColor" || prop == "activeColor" || prop == "activeBackgroundColor" ||
    prop == "focusColor" || prop == "focusBackgroundColor" || prop == "borderColor"
  }

  /** `getInheritedValue`; the theme's colour translation is a parameter. */
  function InheritedValue(styles: seq<Style>, i: nat, prop: string, visited: set<nat>, translate: bool, themed: Value -> Value): (r: Option<(Value, nat)>)
    requires i < |styles| && forall x :: x in visited ==> x < |styles|
  {
    match InheritedFrom(styles, i, prop, visited)
    case None => None
    case Some((v, k)) => Some((if translate && IsColorProperty(prop) then themed(v) else v, k))
  }

  /** The styles a `visited` list holds. */
  function Elements(v: seq<nat>): (r: set<nat>)
    ensures forall x :: x in r <==> x in v
  {
    set x | x in v
  }

  /** The recursion of `getInheritedValue` as a loop over the chain, pushing each style onto `visited`. */
  method GetInheritedValue(styles: seq<Style>, start: nat, prop: string, visited0: seq<nat>, translate: bool, themed: Value -> Value)
    returns (r: Option<(Value, nat)>)
    requires start < |styles| && forall k :: 0 <= k < |visited0| ==> visited0[k] < |styles|
    ensures r == InheritedValue(styles, start, prop, Elements(visited0), translate, themed)
  {
    var visited: seq<nat> := visited0;
    var i: nat := start;
    RangeCardinality(Elements(visited0), |styles|);
    while true
      invariant i < |styles| && forall k :: 0 <= k < |visited| ==> visited[k] < |styles|
      invariant |Elements(visited)| <= |styles|
      invariant InheritedFrom(styles, i, prop, Elements(visited)) == InheritedFrom(styles, start, prop, Elements(visited0))
      decreases |styles| - |Elements(visited)|
    {
      if i in visited {
        return None;
      }
      ghost var before := Elements(visited);
      visited := visited + [i];
      assert Elements(visited) == before + {i};
      assert i !in before;
      RangeCardinality(before + {i}, |styles|);
      var value := GetProperty(styles[i], prop);
      if value != Undefined {
        if translate && IsColorProperty(prop) {
          value := themed(value);
        }
        return Some((value, i));
      }
      var parent := Parent(styles, i);
      if parent.None? {
        return None;
      }
      i := parent.value;
    }
  }

  /** The declared defaults of the style properties (undefined for those that declare none). */
  const DEFAULTS: map<string, Value> := map[
    "id" := Undefined,
    "name" := Undefined,
    "description" := Undefined,
    "inheritFrom" := Undefined,
    "font" := Undefined,
    "alignHorizontal" := Str("center"),
    "alignVertical" := Str("center"),
    "color" := Str("#000000"),
    "backgroundColor" := Str("#ffffff"),
    "activeColor" := Str("#ffffff"),
    "activeBackgroundColor" := Str("#000000"),
    "focusColor" := Str("#ffffff"),
    "focusBackgroundColor" := Str("#000000"),
    "borderSize" := Str("0"),
    "borderRadius" := Num(0),
    "borderColor" := Str("#000000"),
    "padding" := Str("0"),
    "margin" := Str("0"),
    "opacity" := Num(255),
    "blink" := Bool(false),
    "alwaysBuild" := Bool(false)
  ]

  /** `getStyleProperty`: the inherited value, else the declared default; None where the source throws on a name that is not a style property. */
  function GetStyleProperty(styles: seq<Style>, i: nat, prop: string, translate: bool, themed: Value -> Value): (r: Option<Value>)
    requires i < |styles|
    ensures InheritedFrom(styles, i, prop, {}).None? ==> r == if prop in DEFAULTS then Some(DEFAULTS[prop]) else None
  {
    match InheritedValue(styles, i, prop, {}, translate, themed)
    case Some((v, _)) => Some(v)
    case None => if prop in DEFAULTS then Some(DEFAULTS[prop]) else None
  }

  /** When no style on the chain defines a known property, its declared default is used. */
  lemma DefaultWhenUndefined(styles: seq<Style>, i: nat, prop: string, translate: bool, themed: Value -> Value)
    requires i < |styles| && !ChainMeets(Links(styles), Defining(styles, prop), i) && prop in DEFAULTS
    ensures GetStyleProperty(styles, i, prop, translate, themed) == Some(DEFAULTS[prop])
  {
    InheritedIsFirstOnChain(styles, i, prop);
  }

  /** A property the style itself defines is its own value, translated if it is a colour. */
  lemma OwnValueWins(styles: seq<Style>, i: nat, prop: string, themed: Value -> Value)
    requires i < |styles| && Defines(styles[i], prop)
    ensures GetStyleProperty(styles, i, prop, false, themed) == Some(GetProperty(styles[i], prop))
    ensures GetStyleProperty(styles, i, prop, true, themed) ==
      Some(if IsColorProperty(prop) then themed(GetProperty(styles[i], prop)) else GetProperty(styles[i], prop))
  {
  }

  // ---------------------------------------------------------------------------
  // Loading: the legacy padding fields

  /** `v || 0`. */
  function OrZero(v: Value): Value
  {
    if Truthy(v) then v else Num(0)
  }

  /** `a !== b` where it needs no object identity. */
  function StrictlyDifferent(a: Value, b: Value): Option<bool>
  {
    if IsPrimitive(a) && IsPrimitive(b) then
      if a.Opaque? || b.Opaque? then (if a == b then Some(false) else None)
      else Some(a != b)
    else None
  }

  /**
   * The padding the migration writes: a single value when the legacy
   * horizontal and vertical paddings agree, else "vertical horizontal"
   * (None where the model does not compute the text).
   */
  function MigratedPadding(horizontal: Value, vertical: Value): Option<Value>
  {
    var h, v := OrZero(horizontal), OrZero(vertical);
    match StrictlyDifferent(h, v)
    case None => None
    case Some(different) =>
      if !different then Some(h)
      else match Plus(v, Str(" "))
        case None => None
        case Some(front) => Plus(front, h)
  }

  /** The `beforeLoadHook` of a style: both legacy keys are removed and `padding` is set from them. */
  method MigratePadding(obj: JsObject) returns (modelled: bool)
    modifies obj
    ensures var h, v := FieldOf(old(obj.fields), "paddingHorizontal"), FieldOf(old(obj.fields), "paddingVertical");
      if h == Undefined && v == Undefined then modelled && obj.fields == old(obj.fields)
      else match MigratedPadding(h, v)
        case None => !modelled && obj.fields == old(obj.fields)
        case Some(p) => (modelled &&
          obj.fields == (old(obj.fields) - {"paddingHorizontal", "paddingVertical"})["padding" := p])
  {
    var h := FieldOf(obj.fields, "paddingHorizontal");
    var v := FieldOf(obj.fields, "paddingVertical");
    if h == Undefined && v == Undefined {
      return true;
    }
    var padding := MigratedPadding(h, v);
    if padding.None? {
      return false;
    }
    obj.fields := (obj.fields - {"paddingHorizontal", "paddingVertical"})["padding" := padding.value];
    return true;
  }

  /** Equal legacy paddings give that one value; different ones give one string, vertical first. */
  lemma MigratedPaddingShape(h: int, v: int)
    requires h != 0 && v != 0
    ensures h == v ==> MigratedPadding(Num(h), Num(v)) == Some(Num(h))
    ensures h != v ==>
      MigratedPadding(Num(h), Num(v)) == Some(Str(Strings.IntToString(v) + " " + Strings.IntToString(h)))
  {
  }

  /** A missing legacy padding counts as 0. */
  lemma MigratedPaddingMissing(h: int)
    requires h != 0
    ensures MigratedPadding(Num(h), Undefined) == Some(Str("0 " + Strings.IntToString(h)))
    ensures MigratedPadding(Undefined, Num(0)) == Some(Num(0))
  {
    assert Strings.IntToString(0) == "0";
    assert Strings.IntToString(0) + " " == "0 ";
  }

  // ---------------------------------------------------------------------------
  // check

  datatype Message =
    | Error(text: string, property: string)
    | NotUnique(property: string)
    | NotFound(property: string)
    | InvalidValue(property: string)

  const ID_MESSAGE := Error("\"Id\": invalid value, should be greater then 0 and less then 32768.", "id")

  /** The id test: as written `!(id > 0 || id < 32768)`, repaired `!(id > 0 && id < 32768)`. */
  predicate IdOutOfRange(mode: Mode, id: int)
  {
    if mode.AsWritten? then !(id > 0 || id < 32768) else !(id > 0 && id < 32768)
  }

  /** As written the id test never fires; repaired it fires exactly outside 1..32767. */
  lemma IdTestNeverFires(id: int)
    ensures !IdOutOfRange(AsWritten, id)
    ensures IdOutOfRange(Corrected, id) <==> id <= 0 || id >= 32768
  {
  }

  /** The inputs of `check` that come from the project rather than from the style chain. */
  datatype Project = Project(
    isDashboard: bool,
    projectVersion: string,
    /** The number of styles with each id (`allStyleIdToStyleMap.get(id).length`). */
    idCount: int -> nat,
    /** Whether a colour property converts to a 16-bit colour (`!isNaN(object.xxx16)`). */
    colorValid: string -> bool)

  /** The id part of the check; it reports the range message exactly when the id test fires. */
  function IdMessages(mode: Mode, project: Project, id: Option<int>): (r: seq<Message>)
    ensures forall m :: m in r ==> m.property == "id"
    ensures ID_MESSAGE in r <==> id.Some? && IdOutOfRange(mode, id.value)
  {
    if id.None? then []
    else if IdOutOfRange(mode, id.value) then [ID_MESSAGE]
    else if project.idCount(id.value) > 1 then [NotUnique("id")]
    else []
  }

  /** The colour properties checked, the active and focus ones only in projects after v1. */
  function CheckedColors(projectVersion: string): (r: seq<string>)
    ensures "id" !in r && "borderRadius" !in r && "alignHorizontal" !in r && "alignVertical" !in r
  {
    ["color", "backgroundColor"] +
    (if projectVersion != "v1" then ["activeColor", "activeBackgroundColor", "focusColor", "focusBackgroundColor"] else []) +
    ["borderColor"]
  }

  /** One invalid-value message per colour property that does not convert, in order. */
  function ColorMessages(colorValid: string -> bool, props: seq<string>): (r: seq<Message>)
    ensures forall p :: InvalidValue(p) in r <==> p in props && !colorValid(p)
    ensures forall m :: m in r ==> m.InvalidValue? && m.property in props
  {
    if |props| == 0 then []
    else (if colorValid(props[0]) then [] else [InvalidValue(props[0])]) + ColorMessages(colorValid, props[1..])
  }

  /** How `getRect` sees a property value; None for a value the model does not classify. */
  function RectInput(v: Value): Option<RectValue>
  {
    match v
    case Undefined => Some(Missing)
    case Num(n) => Some(Number(n))
    case Str(s) => Some(Text(s))
    case Opaque(_) => None
    case _ => Some(OtherType)
  }

  /** The `"Border size": …` message, at most one, when `getRect` reports an error. */
  function RectMessages(mode: Mode, subject: string, property: string, v: Value): (r: Option<seq<Message>>)
    ensures r.Some? ==> forall m :: m in r.value ==> m.Error? && m.property == property
    ensures r.Some? ==> RectInput(v).Some? && (r.value == [] <==> RectOf(mode, RectInput(v).value).0.None?)
  {
    match RectInput(v)
    case None => None
    case Some(input) =>
      var error := RectOf(mode, input).0;
      Some(if error.Some? then [Error("\"" + subject + "\": " + error.value + ".", property)] else [])
  }

  /** Alignments outside their allowed values. */
  function AlignMessages(alignHorizontal: Value, alignVertical: Value): (r: seq<Message>)
    ensures InvalidValue("alignHorizontal") in r <==> alignHorizontal !in {Str("left"), Str("center"), Str("right")}
    ensures InvalidValue("alignVertical") in r <==> alignVertical !in {Str("top"), Str("center"), Str("bottom")}
    ensures forall m :: m in r ==> m.InvalidValue? && m.property in {"alignHorizontal", "alignVertical"}
  {
    (if alignHorizontal != Str("left") && alignHorizontal != Str("center") && alignHorizontal != Str("right")
     then [InvalidValue("alignHorizontal")] else []) +
    (if alignVertical != Str("top") && alignVertical != Str("center") && alignVertical != Str("bottom")
     then [InvalidValue("alignVertical")] else [])
  }

  /** `borderRadius < 0` on a number. */
  predicate NegativeRadius(v: Value)
  {
    v.Num? && v.n < 0
  }

  /** The property as the check reads it: inherited along the chain, else the default. */
  function Resolved(styles: seq<Style>, i: nat, prop: string, themed: Value -> Value): Value
    requires i < |styles|
  {
    match GetStyleProperty(styles, i, prop, false, themed)
    case Some(v) => v
    case None => Undefined
  }

  /** The property rules of the check over the resolved values, in the order the source pushes their messages. */
  function RuleMessages(mode: Mode, project: Project, borderSize: Value, padding: Value, margin: Value,
                        borderRadius: Value, alignHorizontal: Value, alignVertical: Value): (r: Option<seq<Message>>)
    ensures r.Some? ==> forall m :: m in r.value ==> m.property != "id"
  {
    var border := RectMessages(mode, "Border size", "borderSize", borderSize);
    var paddings := RectMessages(mode, "Padding", "padding", padding);
    var margins := RectMessages(mode, "Margin", "margin", margin);
    if border.None? || paddings.None? || margins.None? then None
    else
      var radius := if NegativeRadius(borderRadius) then [InvalidValue("borderRadius")] else [];
      var align := AlignMessages(alignHorizontal, alignVertical);
      var colors := ColorMessages(project.colorValid, CheckedColors(project.projectVersion));
      Some(border.value + radius + align + colors + paddings.value + margins.value)
  }

  /** The property rules of the check, each reading its property inherited along the chain. */
  function PropertyMessages(mode: Mode, project: Project, styles: seq<Style>, i: nat, themed: Value -> Value): (r: Option<seq<Message>>)
    requires i < |styles|
    ensures r.Some? ==> forall m :: m in r.value ==> m.property != "id"
  {
    RuleMessages(mode, project,
      Resolved(styles, i, "borderSize", themed), Resolved(styles, i, "padding", themed), Resolved(styles, i, "margin", themed),
      Resolved(styles, i, "borderRadius", themed), Resolved(styles, i, "alignHorizontal", themed),
      Resolved(styles, i, "alignVertical", themed))
  }

  /**
   * The `check` of style `i`: nothing for a dashboard project; otherwise
   * the id messages, then either the missing base style or the property
   * rules. None where a property holds a value the model does not classify.
   */
  function Check(mode: Mode, project: Project, styles: seq<Style>, i: nat, themed: Value -> Value): (r: Option<seq<Message>>)
    requires i < |styles|
  {
    var style := styles[i];
    if project.isDashboard then Some([])
    else
      var ids := IdMessages(mode, project, style.id);
      if style.inheritFrom != "" && FindStyle(styles, style.inheritFrom).None? then Some(ids + [NotFound("inheritFrom")])
      else match PropertyMessages(mode, project, styles, i, themed)
        case None => None
        case Some(rest) => Some(ids + rest)
  }

  /** Outside a dashboard project the id messages come first, and the range message is reported exactly when the id test fires. */
  lemma IdMessageReported(mode: Mode, project: Project, styles: seq<Style>, i: nat, themed: Value -> Value)
    requires i < |styles| && !project.isDashboard
    requires Check(mode, project, styles, i, themed).Some?
    ensures var ms := Check(mode, project, styles, i, themed).value;
      var ids := IdMessages(mode, project, styles[i].id);
      ids <= ms && (ID_MESSAGE in ms <==> styles[i].id.Some? && IdOutOfRange(mode, styles[i].id.value))
  {
    var ids := IdMessages(mode, project, styles[i].id);
    var rest: seq<Message>;
    if styles[i].inheritFrom != "" && FindStyle(styles, styles[i].inheritFrom).None? {
      rest := [NotFound("inheritFrom")];
    } else {
      rest := PropertyMessages(mode, project, styles, i, themed).value;
    }
    assert Check(mode, project, styles, i, themed).value == ids + rest;
    assert forall m :: m in rest ==> m.property != "id";
  }

  /**
   * As written, no style gets the id-range message, whatever its id;
   * repaired, a style whose id is outside 1..32767 gets it first.
   */
  lemma IdMessageNeverReported(project: Project, styles: seq<Style>, i: nat, themed: Value -> Value)
    requires i < |styles| && !project.isDashboard
    ensures Check(AsWritten, project, styles, i, themed).Some? ==>
      ID_MESSAGE !in Check(AsWritten, project, styles, i, themed).value
    ensures styles[i].id.Some? && (styles[i].id.value <= 0 || styles[i].id.value >= 32768) &&
      Check(Corrected, project, styles, i, themed).Some?
      ==> Check(Corrected, project, styles, i, themed).value[0] == ID_MESSAGE
  {
    if Check(AsWritten, project, styles, i, themed).Some? {
      IdMessageReported(AsWritten, project, styles, i, themed);
    }
    if Check(Corrected, project, styles, i, themed).Some? {
      IdMessageReported(Corrected, project, styles, i, themed);
    }
  }

  /** A dashboard project's styles are not checked. */
  lemma DashboardUnchecked(mode: Mode, project: Project, styles: seq<Style>, i: nat, themed: Value -> Value)
    requires i < |styles| && project.isDashboard
    ensures Check(mode, project, styles, i, themed) == Some([])
  {
  }

  /** A missing base style is reported, and then none of the property rules run. */
  lemma MissingBaseStopsCheck(mode: Mode, project: Project, styles: seq<Style>, i: nat, themed: Value -> Value)
    requires i < |styles| && !project.isDashboard
    requires styles[i].inheritFrom != "" && FindStyle(styles, styles[i].inheritFrom).None?
    ensures Check(mode, project, styles, i, themed) == Some(IdMessages(mode, project, styles[i].id) + [NotFound("inheritFrom")])
  {
  }

  /**
   * The property rules report a negative border radius, an alignment outside
   * its set and a colour that does not convert, each exactly when it occurs.
   */
  lemma RuleMessagesReported(mode: Mode, project: Project, borderSize: Value, padding: Value, margin: Value,
                             borderRadius: Value, alignHorizontal: Value, alignVertical: Value)
    requires RuleMessages(mode, project, borderSize, padding, margin, borderRadius, alignHorizontal, alignVertical).Some?
    ensures var ms := RuleMessages(mode, project, borderSize, padding, margin, borderRadius, alignHorizontal, alignVertical).value;
      (InvalidValue("borderRadius") in ms <==> NegativeRadius(borderRadius)) &&
      (InvalidValue("alignHorizontal") in ms <==> alignHorizontal !in {Str("left"), Str("center"), Str("right")}) &&
      (InvalidValue("alignVertical") in ms <==> alignVertical !in {Str("top"), Str("center"), Str("bottom")}) &&
      (forall p :: p in CheckedColors(project.projectVersion) ==> (InvalidValue(p) in ms <==> !project.colorValid(p)))
  {
    var border := RectMessages(mode, "Border size", "borderSize", borderSize).value;
    var paddings := RectMessages(mode, "Padding", "padding", padding).value;
    var margins := RectMessages(mode, "Margin", "margin", margin).value;
    var radius := if NegativeRadius(borderRadius) then [InvalidValue("borderRadius")] else [];
    var align := AlignMessages(alignHorizontal, alignVertical);
    var colors := ColorMessages(project.colorValid, CheckedColors(project.projectVersion));
    var ms := RuleMessages(mode, project, borderSize, padding, margin, borderRadius, alignHorizontal, alignVertical).value;
    assert ms == border + radius + align + colors + paddings + margins;
    forall p | InvalidValue(p) in ms
      ensures InvalidValue(p) in radius || InvalidValue(p) in align || InvalidValue(p) in colors
    {
    }
  }

  /** The same rules, for the values a style resolves along its chain. */
  lemma PropertyRulesReported(mode: Mode, project: Project, styles: seq<Style>, i: nat, themed: Value -> Value)
    requires i < |styles|
    requires PropertyMessages(mode, project, styles, i, themed).Some?
    ensures var ms := PropertyMessages(mode, project, styles, i, themed).value;
      (InvalidValue("borderRadius") in ms <==> NegativeRadius(Resolved(styles, i, "borderRadius", themed))) &&
      (InvalidValue("alignHorizontal") in ms <==>
        Resolved(styles, i, "alignHorizontal", themed) !in {Str("left"), Str("center"), Str("right")}) &&
      (InvalidValue("alignVertical") in ms <==>
        Resolved(styles, i, "alignVertical", themed) !in {Str("top"), Str("center"), Str("bottom")}) &&
      (forall p :: p in CheckedColors(project.projectVersion) ==> (InvalidValue(p) in ms <==> !project.colorValid(p)))
  {
    RuleMessagesReported(mode, project,
      Resolved(styles, i, "borderSize", themed), Resolved(styles, i, "padding", themed), Resolved(styles, i, "margin", themed),
      Resolved(styles, i, "borderRadius", themed), Resolved(styles, i, "alignHorizontal", themed),
      Resolved(styles, i, "alignVertical", themed));
  }
}
