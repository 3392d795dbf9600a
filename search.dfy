/**
 * Project search: the visitors that walk a project's object tree, the rule
 * by which a property value matches a search pattern, the rule by which it
 * refers to a named object, `isReferenced`, and `replaceObjectReference`.
 *
 * An object is the list of its properties in class-declaration order; a
 * property either holds a child object or array (`Nested`) or a plain value
 * (`Simple`). The generators become functions producing sequences, the pause
 * markers of the time-sliced visitor being `None`.
 */
module Search {
  import opened Wrappers
  import opened JsValues
  import Strings

  // ---------------------------------------------------------------------------
  // Object trees

  /** `PropertyType` as far as the reference search distinguishes it. */
  datatype PropertyKind = ObjectReference | ThemedColor | ConfigurationReference | OtherKind

  datatype PropertyInfo = PropertyInfo(
    name: string,
    kind: PropertyKind,
    skipSearch: bool,
    /** `referencedObjectCollectionPath`, undefined when absent. */
    collectionPath: Option<string>)

  datatype EezObject =
    | Object(slots: seq<Slot>)
    | ArrayOf(items: seq<EezObject>)

  /** One property of an object: an `Object`/`Array`-typed one, absent when undefined, or any other. */
  datatype Slot =
    | Nested(name: string, skip: bool, child: Option<EezObject>)
    | Simple(info: PropertyInfo, value: Value)

  /** `EezValueObject`: a plain property value together with the property's description. */
  datatype ValueObject = ValueObject(info: PropertyInfo, value: Value)

  /** The number of properties of an object or elements of an array. */
  function Width(o: EezObject): nat
  {
    match o
    case Object(slots) => |slots|
    case ArrayOf(items) => |items|
  }

  /** The value object property `k` contributes itself: a truthy plain value not excluded from search. */
  function ValueOf(o: EezObject, k: nat): Option<ValueObject>
    requires k < Width(o)
  {
    match o
    case ArrayOf(_) => None
    case Object(slots) =>
      match slots[k]
      case Nested(_, _, _) => None
      case Simple(info, v) => if !info.skipSearch && Truthy(v) then Some(ValueObject(info, v)) else None
  }

  /** The child the visitors descend into at position `k`: an array element, or a present nested property not excluded from search. */
  function ChildOf(o: EezObject, k: nat): Option<EezObject>
    requires k < Width(o)
  {
    match o
    case ArrayOf(items) => Some(items[k])
    case Object(slots) =>
      match slots[k]
      case Simple(_, _) => None
      case Nested(_, skip, child) => if skip then None else child
  }

  // ---------------------------------------------------------------------------
  // visitWithPause / visitWithoutPause

  /**
   * The value objects `visitWithPause` (`pause`) or `visitWithoutPause`
   * yields for `o`: array elements in order, an object's properties in
   * order, and, with `pause`, a `None` after each object and array.
   */
  function Visit(o: EezObject, pause: bool): seq<Option<ValueObject>>
    decreases o, 1
  {
    Members(o, pause, 0) + (if pause then [None] else [])
  }

  function Members(o: EezObject, pause: bool, i: nat): seq<Option<ValueObject>>
    decreases o, 0, Width(o) - i
  {
    if i >= Width(o) then []
    else
      (match o
       case ArrayOf(items) => Visit(items[i], pause)
       case Object(slots) =>
         match slots[i]
         case Simple(info, v) => if !info.skipSearch && Truthy(v) then [Some(ValueObject(info, v))] else []
         case Nested(_, skip, child) => if !skip && child.Some? then Visit(child.value, pause) else [])
      + Members(o, pause, i + 1)
  }

  /** What position `i` contributes to the visit, written with `ValueOf` and `ChildOf`. */
  function Piece(o: EezObject, pause: bool, i: nat): seq<Option<ValueObject>>
    requires i < Width(o)
  {
    (if ValueOf(o, i).Some? then [ValueOf(o, i)] else [])
    + (if ChildOf(o, i).Some? then Visit(ChildOf(o, i).value, pause) else [])
  }

  lemma MembersUnfold(o: EezObject, pause: bool, i: nat)
    requires i < Width(o)
    ensures Members(o, pause, i) == Piece(o, pause, i) + Members(o, pause, i + 1)
  {
  }

  /** Whether the visit of position `k` of `o` yields `vo`. */
  predicate FoundAt(o: EezObject, k: nat, vo: ValueObject, pause: bool)
    requires k < Width(o)
  {
    ValueOf(o, k) == Some(vo) || (ChildOf(o, k).Some? && Some(vo) in Visit(ChildOf(o, k).value, pause))
  }

  lemma {:induction false} MembersHold(o: EezObject, pause: bool, i: nat, vo: ValueObject)
    requires i <= Width(o)
    ensures Some(vo) in Members(o, pause, i) <==> exists k :: i <= k < Width(o) && FoundAt(o, k, vo, pause)
    decreases Width(o) - i
  {
    if i < Width(o) {
      MembersHold(o, pause, i + 1, vo);
      FoundStep(o, pause, i, vo);
    } else {
      FoundEnd(o, pause, vo);
    }
  }

  lemma FoundEnd(o: EezObject, pause: bool, vo: ValueObject)
    ensures Some(vo) !in Members(o, pause, Width(o))
  {
  }

  lemma FoundStep(o: EezObject, pause: bool, i: nat, vo: ValueObject)
    requires i < Width(o)
    requires Some(vo) in Members(o, pause, i + 1) <==> exists k :: i + 1 <= k < Width(o) && FoundAt(o, k, vo, pause)
    ensures Some(vo) in Members(o, pause, i) <==> exists k :: i <= k < Width(o) && FoundAt(o, k, vo, pause)
  {
    MembersUnfold(o, pause, i);
    assert Some(vo) in Piece(o, pause, i) <==> FoundAt(o, i, vo, pause);
    if FoundAt(o, i, vo, pause) {
      assert i <= i < Width(o) && FoundAt(o, i, vo, pause);
    }
  }

  /**
   * A visit yields exactly the truthy plain values of the object's own
   * searchable properties and what the visits of its array elements and
   * searchable nested properties yield: `skipSearch` properties and absent
   * children contribute nothing.
   */
  lemma VisitMembers(o: EezObject, pause: bool, vo: ValueObject)
    ensures Some(vo) in Visit(o, pause) <==> exists k :: 0 <= k < Width(o) && FoundAt(o, k, vo, pause)
  {
    MembersHold(o, pause, 0, vo);
  }

  /** Every value a visit yields is truthy and belongs to a property not excluded from search. */
  lemma {:induction false} VisitSearchable(o: EezObject, pause: bool, vo: ValueObject)
    requires Some(vo) in Visit(o, pause)
    ensures !vo.info.skipSearch && Truthy(vo.value)
    decreases o
  {
    VisitMembers(o, pause, vo);
    var k :| 0 <= k < Width(o) && FoundAt(o, k, vo, pause);
    if ValueOf(o, k) != Some(vo) {
      match o
      case ArrayOf(items) =>
        VisitSearchable(items[k], pause, vo);
      case Object(slots) =>
        match slots[k]
        case Nested(_, _, child) =>
          VisitSearchable(child.value, pause, vo);
    }
  }

  /** The values of a sequence with the pause markers dropped. */
  function Present<T>(r: seq<Option<T>>): seq<T>
  {
    if |r| == 0 then []
    else Present(r[..|r| - 1]) + (if r[|r| - 1].Some? then [r[|r| - 1].value] else [])
  }

  lemma {:induction false} PresentAppend<T>(a: seq<Option<T>>, b: seq<Option<T>>)
    ensures Present(a + b) == Present(a) + Present(b)
    decreases |b|
  {
    if |b| > 0 {
      assert (a + b)[..|a + b| - 1] == a + b[..|b| - 1];
      assert (a + b)[|a + b| - 1] == b[|b| - 1];
      PresentAppend(a, b[..|b| - 1]);
    } else {
      assert a + b == a;
    }
  }

  /** The paused visit yields the same values in the same order; only the unpaused one is free of markers. */
  lemma {:induction false} PauseOnlyAddsMarkers(o: EezObject)
    ensures Present(Visit(o, true)) == Present(Visit(o, false))
    ensures None !in Visit(o, false)
    decreases o, 1
  {
    PauseMembers(o, 0);
    var marker: seq<Option<ValueObject>> := [None];
    assert marker[..0] == [];
    assert Present(marker) == [];
    PresentAppend(Members(o, true, 0), marker);
    assert Visit(o, true) == Members(o, true, 0) + marker;
    assert Visit(o, false) == Members(o, false, 0);
  }

  lemma {:induction false} PauseMembers(o: EezObject, i: nat)
    ensures Present(Members(o, true, i)) == Present(Members(o, false, i))
    ensures None !in Members(o, false, i)
    decreases o, 0, Width(o) - i
  {
    if i < Width(o) {
      PauseMembers(o, i + 1);
      PausePiece(o, i);
      MembersUnfold(o, true, i);
      MembersUnfold(o, false, i);
      PresentAppend(Piece(o, true, i), Members(o, true, i + 1));
      PresentAppend(Piece(o, false, i), Members(o, false, i + 1));
    }
  }

  lemma {:induction false} PausePiece(o: EezObject, i: nat)
    requires i < Width(o)
    ensures Present(Piece(o, true, i)) == Present(Piece(o, false, i))
    ensures None !in Piece(o, false, i)
    decreases o, 0, 0
  {
    var own := if ValueOf(o, i).Some? then [ValueOf(o, i)] else [];
    if ChildOf(o, i).Some? {
      match o {
        case ArrayOf(items) =>
          PauseOnlyAddsMarkers(items[i]);
        case Object(slots) =>
          match slots[i]
          case Nested(_, _, child) =>
            PauseOnlyAddsMarkers(child.value);
      }
      PresentAppend(own, Visit(ChildOf(o, i).value, true));
      PresentAppend(own, Visit(ChildOf(o, i).value, false));
    } else {
      assert Piece(o, true, i) == own;
      assert Piece(o, false, i) == own;
    }
  }

  // ---------------------------------------------------------------------------
  // visitObjects

  /** The objects `visitObjects` yields: an object before what lies below it, arrays flattened in order. */
  function Objects(o: EezObject): seq<EezObject>
    decreases o, 1
  {
    if o.Object? then [o] + ObjectMembers(o, 0) else ObjectMembers(o, 0)
  }

  function ObjectMembers(o: EezObject, i: nat): seq<EezObject>
    decreases o, 0, Width(o) - i
  {
    if i >= Width(o) then []
    else
      (match o
       case ArrayOf(items) => Objects(items[i])
       case Object(slots) =>
         match slots[i]
         case Simple(_, _) => []
         case Nested(_, skip, child) => if !skip && child.Some? then Objects(child.value) else [])
      + ObjectMembers(o, i + 1)
  }

  /** Whether `x` is yielded by the visit that descends through position `k` of `o`. */
  predicate Below(o: EezObject, k: nat, x: EezObject)
    requires k < Width(o)
  {
    ChildOf(o, k).Some? && x in Objects(ChildOf(o, k).value)
  }

  lemma ObjectMembersUnfold(o: EezObject, i: nat)
    requires i < Width(o)
    ensures ObjectMembers(o, i)
      == (if ChildOf(o, i).Some? then Objects(ChildOf(o, i).value) else []) + ObjectMembers(o, i + 1)
  {
  }

  lemma {:induction false} ObjectMembersHold(o: EezObject, i: nat, x: EezObject)
    requires i <= Width(o)
    ensures x in ObjectMembers(o, i) <==> exists k :: i <= k < Width(o) && Below(o, k, x)
    decreases Width(o) - i
  {
    if i < Width(o) {
      ObjectMembersHold(o, i + 1, x);
      MembersStep(o, i, x);
    } else {
      MembersEnd(o, x);
    }
  }

  lemma MembersEnd(o: EezObject, x: EezObject)
    ensures x !in ObjectMembers(o, Width(o))
  {
  }

  lemma MembersStep(o: EezObject, i: nat, x: EezObject)
    requires i < Width(o)
    requires x in ObjectMembers(o, i + 1) <==> exists k :: i + 1 <= k < Width(o) && Below(o, k, x)
    ensures x in ObjectMembers(o, i) <==> exists k :: i <= k < Width(o) && Below(o, k, x)
  {
    ObjectMembersUnfold(o, i);
    HeadBelow(o, i, x);
    BelowSplit(o, i, x);
  }

  lemma HeadBelow(o: EezObject, i: nat, x: EezObject)
    requires i < Width(o)
    ensures x in (if ChildOf(o, i).Some? then Objects(ChildOf(o, i).value) else []) <==> Below(o, i, x)
  {
  }

  /** Something lies below a position from `i` on when it lies below `i` or below a later position. */
  lemma BelowSplit(o: EezObject, i: nat, x: EezObject)
    requires i < Width(o)
    ensures (exists k :: i <= k < Width(o) && Below(o, k, x))
      <==> Below(o, i, x) || exists k :: i + 1 <= k < Width(o) && Below(o, k, x)
  {
    if Below(o, i, x) {
      assert i <= i < Width(o) && Below(o, i, x);
    }
  }

  /**
   * `visitObjects` is pre-order: an object comes first, followed by exactly
   * the objects below its searchable nested properties; an array yields
   * exactly the objects of its elements.
   */
  lemma PreOrder(o: EezObject, x: EezObject)
    ensures o.Object? ==> |Objects(o)| > 0 && Objects(o)[0] == o
    ensures (if o.Object? then x in Objects(o)[1..] else x in Objects(o))
      <==> exists k :: 0 <= k < Width(o) && Below(o, k, x)
  {
    ObjectMembersHold(o, 0, x);
    if o.Object? {
      assert Objects(o)[1..] == ObjectMembers(o, 0);
    }
  }

  /** Arrays are flattened: only objects are yielded. */
  lemma {:induction false} OnlyObjects(o: EezObject, x: EezObject)
    requires x in Objects(o)
    ensures x.Object?
    decreases o
  {
    if !(o.Object? && x == o) {
      PreOrder(o, x);
      if o.Object? {
        assert Objects(o) == [o] + Objects(o)[1..];
      }
      var k :| 0 <= k < Width(o) && Below(o, k, x);
      match o
      case ArrayOf(items) =>
        OnlyObjects(items[k], x);
      case Object(slots) =>
        match slots[k]
        case Nested(_, _, child) =>
          OnlyObjects(child.value, x);
    }
  }

  lemma {:induction false} ArrayMembersAppend(items: seq<EezObject>, last: EezObject, i: nat)
    requires i <= |items|
    ensures ObjectMembers(ArrayOf(items + [last]), i) == ObjectMembers(ArrayOf(items), i) + Objects(last)
    decreases |items| - i
  {
    if i < |items| {
      ArrayMembersAppend(items, last, i + 1);
      ArrayMembersUnfold(items + [last], i);
      ArrayMembersUnfold(items, i);
      assert (items + [last])[i] == items[i];
      AppendAssociates(Objects(items[i]), ObjectMembers(ArrayOf(items), i + 1), Objects(last));
    } else {
      ArrayMembersUnfold(items + [last], i);
      ArrayMembersEnd(items + [last]);
      ArrayMembersEnd(items);
    }
  }

  lemma ArrayMembersUnfold(items: seq<EezObject>, i: nat)
    requires i < |items|
    ensures ObjectMembers(ArrayOf(items), i) == Objects(items[i]) + ObjectMembers(ArrayOf(items), i + 1)
  {
  }

  lemma ArrayMembersEnd(items: seq<EezObject>)
    ensures ObjectMembers(ArrayOf(items), |items|) == []
  {
  }

  lemma AppendAssociates(a: seq<EezObject>, b: seq<EezObject>, c: seq<EezObject>)
    ensures a + (b + c) == (a + b) + c
  {
  }

  /** Array elements are visited in index order: one more element adds its objects at the end. */
  lemma ArrayInOrder(items: seq<EezObject>, last: EezObject)
    ensures Objects(ArrayOf(items + [last])) == Objects(ArrayOf(items)) + Objects(last)
  {
    ArrayMembersAppend(items, last, 0);
  }

  // ---------------------------------------------------------------------------
  // Filtering a visit

  /** The results a search passes on: the values `keep` accepts, and the pause markers when pausing. */
  function Filter(r: seq<Option<ValueObject>>, keep: ValueObject -> bool, pause: bool): seq<Option<ValueObject>>
  {
    if |r| == 0 then []
    else
      var last := r[|r| - 1];
      Filter(r[..|r| - 1], keep, pause)
      + (if (last.Some? && keep(last.value)) || (last.None? && pause) then [last] else [])
  }

  lemma {:induction false} FilterMembers(r: seq<Option<ValueObject>>, keep: ValueObject -> bool, pause: bool)
    ensures forall vo :: Some(vo) in Filter(r, keep, pause) <==> Some(vo) in r && keep(vo)
    ensures None in Filter(r, keep, pause) <==> None in r && pause
  {
    if |r| > 0 {
      FilterMembers(r[..|r| - 1], keep, pause);
      assert r == r[..|r| - 1] + [r[|r| - 1]];
    }
  }

  // ---------------------------------------------------------------------------
  // searchForPattern

  /** The three patterns a search compares with: the whole pattern, and the two sides of a `name=value` pattern. */
  datatype Query = Query(pattern: string, namePattern: string, valuePattern: Option<string>)

  predicate IsLower(s: string)
  {
    Strings.ToLower(s) == s
  }

  predicate NoOuterSpace(s: string)
  {
    |s| > 0 ==> !Strings.IsWhiteSpace(s[0]) && !Strings.IsWhiteSpace(s[|s| - 1])
  }

  /** Lower-cases the ASCII letters unless the search matches case; no `=` and no white space appears or disappears. */
  function Fold(s: string, matchCase: bool): (r: string)
    ensures |r| == |s|
    ensures !matchCase ==> IsLower(r)
    ensures matchCase ==> r == s
    ensures '=' !in s ==> '=' !in r
    ensures NoOuterSpace(s) ==> NoOuterSpace(r)
  {
    Strings.ToLowerIdempotent(s);
    if matchCase then s else Strings.ToLower(s)
  }

  /** One side of a `name=value` pattern: trimmed, then folded. */
  function SidePattern(piece: string, matchCase: bool): (r: string)
    ensures NoOuterSpace(r)
    ensures '=' !in piece ==> '=' !in r
    ensures !matchCase ==> IsLower(r)
  {
    var trimmed := Strings.Trim(piece);
    assert '=' !in piece ==> '=' !in trimmed by {
      if '=' !in piece {
        TrimKeepsAbsent(piece, '=');
      }
    }
    Fold(trimmed, matchCase)
  }

  lemma TrimKeepsAbsent(s: string, c: char)
    requires c !in s
    ensures c !in Strings.Trim(s)
  {
    assert Strings.Trim(s) == Strings.TrimEnd(Strings.TrimStart(s));
  }

  /**
   * The patterns `searchForPattern` prepares: the pattern, lower-cased
   * unless case is matched, then split on `=`; the first two pieces, trimmed
   * (and lower-cased again), are the name and value patterns, the value
   * pattern undefined for a pattern without `=`.
   */
  function Prepare(pattern: string, matchCase: bool): (q: Query)
    ensures '=' !in q.namePattern && NoOuterSpace(q.namePattern)
    ensures q.valuePattern.Some? ==> '=' !in q.valuePattern.value && NoOuterSpace(q.valuePattern.value)
    ensures !matchCase ==> IsLower(q.pattern) && IsLower(q.namePattern)
    ensures !matchCase && q.valuePattern.Some? ==> IsLower(q.valuePattern.value)
    ensures '=' !in pattern ==> q.valuePattern.None?
  {
    var p := Fold(pattern, matchCase);
    var pieces := Strings.Split(p, '=');
    OnePiece(pattern, matchCase);
    Query(p, SidePattern(pieces[0], matchCase),
      if |pieces| > 1 then Some(SidePattern(pieces[1], matchCase)) else None)
  }

  lemma OnePiece(pattern: string, matchCase: bool)
    ensures '=' !in pattern ==> Strings.Split(Fold(pattern, matchCase), '=') == [Fold(pattern, matchCase)]
  {
    if '=' !in pattern {
      assert '=' !in Fold(pattern, matchCase);
      Strings.SplitWithoutSeparator(Fold(pattern, matchCase), '=');
    }
  }

  lemma {:induction false} SplitPair(n: string, v: string)
    requires '=' !in n && '=' !in v
    ensures Strings.Split(n + "=" + v, '=') == [n, v]
  {
    var s := n + "=" + v;
    if |n| == 0 {
      assert s == "=" + v && s[1..] == v;
      Strings.SplitWithoutSeparator(v, '=');
    } else {
      assert s[1..] == n[1..] + "=" + v;
      SplitPair(n[1..], v);
      assert [n[0]] + n[1..] == n;
    }
  }

  lemma FoldConcat(a: string, b: string, matchCase: bool)
    ensures Fold(a + b, matchCase) == Fold(a, matchCase) + Fold(b, matchCase)
  {
    if !matchCase {
      var l := Strings.ToLower(a + b);
      var r := Strings.ToLower(a) + Strings.ToLower(b);
      forall i | 0 <= i < |l| ensures l[i] == r[i] {
        if i < |a| {
          assert (a + b)[i] == a[i];
        } else {
          assert (a + b)[i] == b[i - |a|];
        }
      }
    }
  }

  /** A `name=value` pattern compares its trimmed name side with the property name and its trimmed value side with the value. */
  lemma NameValuePattern(n: string, v: string, matchCase: bool)
    requires '=' !in n && '=' !in v
    ensures var q := Prepare(n + "=" + v, matchCase);
      q.namePattern == Fold(Strings.Trim(Fold(n, matchCase)), matchCase)
      && q.valuePattern == Some(Fold(Strings.Trim(Fold(v, matchCase)), matchCase))
  {
    var fn, fv := Fold(n, matchCase), Fold(v, matchCase);
    FoldConcat(n + "=", v, matchCase);
    FoldConcat(n, "=", matchCase);
    assert Fold("=", matchCase) == "=";
    SplitPair(fn, fv);
    assert Strings.Split(Fold(n + "=" + v, matchCase), '=') == [fn, fv];
  }

  /** `namePattern && valuePattern`: both sides present and non-empty. */
  predicate BothSides(q: Query)
  {
    q.namePattern != "" && q.valuePattern.Some? && q.valuePattern.value != ""
  }

  /** The match rule on the (folded) property name and value text. */
  predicate TextMatch(q: Query, wholeWord: bool, name: string, value: string)
  {
    if wholeWord then
      value == q.pattern || (BothSides(q) && name == q.namePattern && value == q.valuePattern.value)
    else
      Strings.Contains(value, q.pattern)
      || (BothSides(q) && Strings.Contains(name, q.namePattern) && Strings.Contains(value, q.valuePattern.value))
  }

  /** `value.toString()`; a non-integral number is written by its name. */
  function Text(v: Value): string
    decreases v
  {
    match v
    case Undefined => "undefined"
    case Null => "null"
    case Bool(b) => if b then "true" else "false"
    case Num(n) => Strings.IntToString(n)
    case Str(s) => s
    case Arr(es) =>
      Strings.Join(seq(|es|, i requires 0 <= i < |es| => if IsNullish(es[i]) then "" else Text(es[i])), ",")
    case Obj(_) => "[object Object]"
    case Opaque(name) => name
  }

  /** Whether `searchForPattern` yields `vo`; `humanize` turns a property name into its display name. */
  predicate PatternMatch(pattern: string, matchCase: bool, wholeWord: bool, humanize: string -> string, vo: ValueObject)
  {
    Truthy(vo.value)
    && TextMatch(Prepare(pattern, matchCase), wholeWord,
         Fold(humanize(vo.info.name), matchCase), Fold(Text(vo.value), matchCase))
  }

  /** `searchForPattern`. */
  function SearchForPattern(root: EezObject, pattern: string, matchCase: bool, wholeWord: bool, pause: bool,
                            humanize: string -> string): seq<Option<ValueObject>>
  {
    Filter(Visit(root, pause), vo => PatternMatch(pattern, matchCase, wholeWord, humanize, vo), pause)
  }

  /**
   * A pattern search yields exactly the visited values that match, markers
   * only when pausing, and never a falsy value or one excluded from search.
   */
  lemma PatternSearchResults(root: EezObject, pattern: string, matchCase: bool, wholeWord: bool, pause: bool,
                             humanize: string -> string, vo: ValueObject)
    ensures Some(vo) in SearchForPattern(root, pattern, matchCase, wholeWord, pause, humanize)
      <==> Some(vo) in Visit(root, pause) && PatternMatch(pattern, matchCase, wholeWord, humanize, vo)
    ensures Some(vo) in SearchForPattern(root, pattern, matchCase, wholeWord, pause, humanize)
      ==> Truthy(vo.value) && !vo.info.skipSearch
    ensures None in SearchForPattern(root, pattern, matchCase, wholeWord, pause, humanize) ==> pause
  {
    var keep := vo => PatternMatch(pattern, matchCase, wholeWord, humanize, vo);
    FilterMembers(Visit(root, pause), keep, pause);
    if Some(vo) in Visit(root, pause) {
      VisitSearchable(root, pause, vo);
    }
  }

  /** A whole-word match is also a substring match. */
  lemma WholeWordIsSubstring(q: Query, name: string, value: string)
    requires TextMatch(q, true, name, value)
    ensures TextMatch(q, false, name, value)
  {
    Strings.ContainsAt(value, value);
    assert Strings.OccursAt(value, value, 0);
    if value != q.pattern {
      Strings.ContainsAt(name, name);
      assert Strings.OccursAt(name, name, 0);
    }
  }

  /** Without `=` in the pattern only the whole pattern is compared with the value; the name plays no part. */
  lemma PlainPattern(pattern: string, matchCase: bool, wholeWord: bool, name: string, value: string)
    requires '=' !in pattern
    ensures TextMatch(Prepare(pattern, matchCase), wholeWord, name, value)
      <==> if wholeWord then value == Fold(pattern, matchCase) else Strings.Contains(value, Fold(pattern, matchCase))
  {
  }

  /** A search that ignores case prepares the same patterns whatever the case of the ASCII letters of the pattern typed. */
  lemma PatternCaseIgnored(pattern: string)
    ensures Prepare(Strings.ToUpper(pattern), false) == Prepare(pattern, false)
    ensures Prepare(Strings.ToLower(pattern), false) == Prepare(pattern, false)
  {
    Strings.LowerOfUpper(pattern);
    Strings.ToLowerIdempotent(pattern);
    assert Fold(Strings.ToUpper(pattern), false) == Fold(pattern, false);
    assert Fold(Strings.ToLower(pattern), false) == Fold(pattern, false);
  }

  /** ... and finds the same values whatever the case of the ASCII letters of their names and texts. */
  lemma TextCaseIgnored(pattern: string, wholeWord: bool, name: string, value: string)
    ensures TextMatch(Prepare(pattern, false), wholeWord, Fold(Strings.ToUpper(name), false), Fold(Strings.ToUpper(value), false))
      == TextMatch(Prepare(pattern, false), wholeWord, Fold(name, false), Fold(value, false))
  {
    Strings.LowerOfUpper(name);
    Strings.LowerOfUpper(value);
  }

  // ---------------------------------------------------------------------------
  // searchForReference

  /**
   * The object whose references are searched: a named object, given by the
   * path of its parent (undefined without a parent) and its `name`, or an
   * import directive, given by the project it imports (undefined if none
   * is loaded).
   */
  datatype Target =
    | Named(parentPath: Option<string>, name: Value)
    | Import(project: Option<nat>)

  /** The search gives up at once without a parent, without a name, or without an imported project. */
  predicate Active(t: Target)
  {
    match t
    case Named(parentPath, name) => parentPath.Some? && Truthy(name) && !(name.Arr? && name.elements == [])
    case Import(project) => project.Some?
  }

  /** `objectParentPath`: never assigned for an import directive. */
  function TargetPath(t: Target): Option<string>
  {
    if t.Named? then t.parentPath else None
  }

  /** `objectName`, and `getProperty(object, "name")`: an import directive has none. */
  function TargetName(t: Target): Value
  {
    if t.Named? then t.name else Undefined
  }

  /** What `value[i]` indexes for `i < value.length`: array elements, or the characters of a string. */
  function Entries(v: Value): seq<Value>
  {
    match v
    case Arr(es) => es
    case Str(s) => seq(|s|, i requires 0 <= i < |s| => Str([s[i]]))
    case _ => []
  }

  /**
   * Whether a visited value refers to the target. `projectOf(path, value)`
   * stands for `findReferencedObject` followed by `getProject`: the project
   * of the object found, `None` when none is found.
   */
  predicate RefMatch(t: Target, projectOf: (string, Value) -> Option<nat>, vo: ValueObject)
  {
    !vo.info.skipSearch && Truthy(vo.value)
    && match vo.info.kind
       case ObjectReference => ObjectRefMatch(t, projectOf, vo)
       case ThemedColor => ObjectRefMatch(t, projectOf, vo)
       case ConfigurationReference =>
         vo.info.collectionPath == TargetPath(t) && TargetName(t) in Entries(vo.value)
       case OtherKind => false
  }

  predicate ObjectRefMatch(t: Target, projectOf: (string, Value) -> Option<nat>, vo: ValueObject)
  {
    match t
    case Import(project) =>
      vo.info.collectionPath.Some? && vo.info.collectionPath.value != ""
      && project.Some? && projectOf(vo.info.collectionPath.value, vo.value) == project
    case Named(parentPath, name) =>
      parentPath.Some? && vo.info.collectionPath == parentPath && vo.value == name
  }

  /** `searchForReference`. */
  function SearchForReference(root: EezObject, t: Target, projectOf: (string, Value) -> Option<nat>, pause: bool)
    : seq<Option<ValueObject>>
  {
    if !Active(t) then [] else Filter(Visit(root, pause), vo => RefMatch(t, projectOf, vo), pause)
  }

  /** Whether some visited value refers to the target. */
  ghost predicate Referenced(root: EezObject, t: Target, projectOf: (string, Value) -> Option<nat>)
  {
    Active(t) && exists vo :: Some(vo) in Visit(root, false) && RefMatch(t, projectOf, vo)
  }

  /** A reference search yields exactly the visited values that refer to an active target, and no markers unless pausing. */
  lemma ReferenceSearchResults(root: EezObject, t: Target, projectOf: (string, Value) -> Option<nat>, pause: bool, vo: ValueObject)
    ensures Some(vo) in SearchForReference(root, t, projectOf, pause)
      <==> Active(t) && Some(vo) in Visit(root, pause) && RefMatch(t, projectOf, vo)
    ensures None in SearchForReference(root, t, projectOf, pause) ==> pause
  {
    if Active(t) {
      FilterMembers(Visit(root, pause), vo => RefMatch(t, projectOf, vo), pause);
    }
  }

  /** An object reference to a named object matches only its own name in its own collection. */
  lemma NamedReference(parentPath: string, name: Value, projectOf: (string, Value) -> Option<nat>, vo: ValueObject)
    requires vo.info.kind == ObjectReference || vo.info.kind == ThemedColor
    ensures RefMatch(Named(Some(parentPath), name), projectOf, vo)
      <==> !vo.info.skipSearch && Truthy(vo.value) && vo.info.collectionPath == Some(parentPath) && vo.value == name
  {
  }

  /** A configuration list refers to a named object when it lies in the object's collection and lists its name. */
  lemma ConfigurationReferenceListed(parentPath: string, name: Value, projectOf: (string, Value) -> Option<nat>,
                                     info: PropertyInfo, es: seq<Value>)
    requires info.kind == ConfigurationReference && !info.skipSearch
    ensures RefMatch(Named(Some(parentPath), name), projectOf, ValueObject(info, Arr(es)))
      <==> info.collectionPath == Some(parentPath) && name in es
  {
  }

  /** `isReferenced`: whether the reference search yields a value. */
  method IsReferenced(root: EezObject, t: Target, projectOf: (string, Value) -> Option<nat>) returns (r: bool)
    ensures r == Referenced(root, t, projectOf)
  {
    var results := SearchForReference(root, t, projectOf, false);
    var i := 0;
    while i < |results|
      invariant 0 <= i <= |results|
      invariant forall k :: 0 <= k < i ==> results[k].None?
    {
      if results[i].Some? {
        ReferenceSearchResults(root, t, projectOf, false, results[i].value);
        assert results[i] in results;
        return true;
      }
      i := i + 1;
    }
    forall vo | Some(vo) in Visit(root, false)
      ensures !(Active(t) && RefMatch(t, projectOf, vo))
    {
      ReferenceSearchResults(root, t, projectOf, false, vo);
    }
    return false;
  }

  // ---------------------------------------------------------------------------
  // replaceObjectReference

  /** A configuration list after renaming: entries equal to the old name become the new one. */
  function ReplacedEntries(es: seq<Value>, name: Value, newValue: string): seq<Value>
  {
    if |es| == 0 then []
    else
      var last := es[|es| - 1];
      ReplacedEntries(es[..|es| - 1], name, newValue) + [if last != name then last else Str(newValue)]
  }

  /** Renaming keeps the list's length and order and replaces exactly the entries equal to the old name. */
  lemma {:induction false} ReplacedEntriesPointwise(es: seq<Value>, name: Value, newValue: string)
    ensures |ReplacedEntries(es, name, newValue)| == |es|
    ensures forall i :: 0 <= i < |es| ==>
      ReplacedEntries(es, name, newValue)[i] == if es[i] != name then es[i] else Str(newValue)
  {
    if |es| > 0 {
      ReplacedEntriesPointwise(es[..|es| - 1], name, newValue);
    }
  }

  /** The loop that builds the renamed configuration list. */
  method ReplaceEntries(es: seq<Value>, name: Value, newValue: string) returns (r: seq<Value>)
    ensures r == ReplacedEntries(es, name, newValue)
  {
    r := [];
    var i := 0;
    while i < |es|
      invariant 0 <= i <= |es|
      invariant r == ReplacedEntries(es[..i], name, newValue)
    {
      assert es[..i + 1][..i] == es[..i];
      if es[i] != name {
        r := r + [es[i]];
      } else {
        r := r + [Str(newValue)];
      }
      i := i + 1;
    }
    assert es[..i] == es;
  }

  /** The new value of a property that refers to the target: the new name, or the renamed list. */
  function ReplacedValue(t: Target, vo: ValueObject, newValue: string): Value
  {
    if vo.info.kind == ConfigurationReference
    then Arr(ReplacedEntries(Entries(vo.value), TargetName(t), newValue))
    else Str(newValue)
  }

  /** Every referring property below `o` set to its new value; nothing else changes. */
  function ReplaceIn(o: EezObject, t: Target, projectOf: (string, Value) -> Option<nat>, newValue: string): (r: EezObject)
    ensures Width(r) == Width(o) && r.Object? == o.Object?
    decreases o
  {
    match o
    case ArrayOf(items) =>
      ArrayOf(seq(|items|, i requires 0 <= i < |items| => ReplaceIn(items[i], t, projectOf, newValue)))
    case Object(slots) =>
      Object(seq(|slots|, i requires 0 <= i < |slots| =>
        match slots[i]
        case Simple(info, v) =>
          if RefMatch(t, projectOf, ValueObject(info, v))
          then Simple(info, ReplacedValue(t, ValueObject(info, v), newValue))
          else slots[i]
        case Nested(name, skip, child) =>
          if !skip && child.Some? then Nested(name, skip, Some(ReplaceIn(child.value, t, projectOf, newValue)))
          else slots[i]))
  }

  /** `replaceObjectReference`: every property the reference search yields receives its new value. */
  function ReplaceObjectReference(root: EezObject, t: Target, projectOf: (string, Value) -> Option<nat>, newValue: string)
    : EezObject
  {
    if Active(t) then ReplaceIn(root, t, projectOf, newValue) else root
  }

  lemma ReplaceInStep(o: EezObject, t: Target, projectOf: (string, Value) -> Option<nat>, newValue: string, k: nat)
    requires k < Width(o)
    ensures var r := ReplaceIn(o, t, projectOf, newValue);
      (ChildOf(o, k).None? <==> ChildOf(r, k).None?)
      && (ChildOf(o, k).Some? ==> ChildOf(r, k).value == ReplaceIn(ChildOf(o, k).value, t, projectOf, newValue))
      && (ValueOf(r, k).Some? ==> ValueOf(o, k).Some?)
      && (ValueOf(o, k).Some? && !RefMatch(t, projectOf, ValueOf(o, k).value) ==> ValueOf(r, k) == ValueOf(o, k))
      && (ValueOf(o, k).Some? && RefMatch(t, projectOf, ValueOf(o, k).value) && ValueOf(r, k).Some? ==>
            ValueOf(r, k).value == ValueObject(ValueOf(o, k).value.info,
                                               ReplacedValue(t, ValueOf(o, k).value, newValue)))
  {
  }

  lemma {:induction false} ListNoLongerRefers(es: seq<Value>, name: Value, newValue: string)
    requires Str(newValue) != name
    ensures name !in ReplacedEntries(es, name, newValue)
  {
    ReplacedEntriesPointwise(es, name, newValue);
  }

  /** A renamed property no longer refers to a named object when the new name differs from its name. */
  lemma ReplacedValueStopsMatching(t: Target, projectOf: (string, Value) -> Option<nat>, vo: ValueObject, newValue: string)
    requires t.Named? && Str(newValue) != t.name
    ensures !RefMatch(t, projectOf, ValueObject(vo.info, ReplacedValue(t, vo, newValue)))
  {
    if vo.info.kind == ConfigurationReference {
      ListNoLongerRefers(Entries(vo.value), t.name, newValue);
    }
  }

  lemma {:induction false} NoReferenceLeft(o: EezObject, t: Target, projectOf: (string, Value) -> Option<nat>,
                                           newValue: string, vo: ValueObject)
    requires t.Named? && Str(newValue) != t.name
    requires Some(vo) in Visit(ReplaceIn(o, t, projectOf, newValue), false)
    ensures !RefMatch(t, projectOf, vo)
    decreases o
  {
    var r := ReplaceIn(o, t, projectOf, newValue);
    VisitMembers(r, false, vo);
    var k :| 0 <= k < Width(r) && FoundAt(r, k, vo, false);
    ReplaceInStep(o, t, projectOf, newValue, k);
    if ValueOf(r, k) == Some(vo) {
      var w := ValueOf(o, k).value;
      if RefMatch(t, projectOf, w) {
        ReplacedValueStopsMatching(t, projectOf, w, newValue);
      }
    } else {
      match o
      case ArrayOf(items) =>
        NoReferenceLeft(items[k], t, projectOf, newValue, vo);
      case Object(slots) =>
        match slots[k]
        case Nested(_, _, child) =>
          NoReferenceLeft(child.value, t, projectOf, newValue, vo);
    }
  }

  /** After renaming the references to a named object to a different name, the object is no longer referenced. */
  lemma RenameRemovesReferences(root: EezObject, t: Target, projectOf: (string, Value) -> Option<nat>, newValue: string)
    requires t.Named? && Str(newValue) != t.name
    ensures !Referenced(ReplaceObjectReference(root, t, projectOf, newValue), t, projectOf)
  {
    if Active(t) {
      forall vo | Some(vo) in Visit(ReplaceIn(root, t, projectOf, newValue), false)
        ensures !RefMatch(t, projectOf, vo)
      {
        NoReferenceLeft(root, t, projectOf, newValue, vo);
      }
    }
  }

  lemma {:induction false} NothingToReplace(o: EezObject, t: Target, projectOf: (string, Value) -> Option<nat>, newValue: string)
    requires forall vo :: Some(vo) in Visit(o, false) ==> !RefMatch(t, projectOf, vo)
    ensures ReplaceIn(o, t, projectOf, newValue) == o
    decreases o
  {
    match o
    case ArrayOf(items) =>
      var r := seq(|items|, i requires 0 <= i < |items| => ReplaceIn(items[i], t, projectOf, newValue));
      forall i | 0 <= i < |items| ensures r[i] == items[i] {
        forall vo | Some(vo) in Visit(items[i], false) ensures !RefMatch(t, projectOf, vo) {
          VisitMembers(o, false, vo);
          assert FoundAt(o, i, vo, false);
        }
        NothingToReplace(items[i], t, projectOf, newValue);
      }
    case Object(slots) =>
      var r := ReplaceIn(o, t, projectOf, newValue);
      forall i | 0 <= i < |slots| ensures r.slots[i] == slots[i] {
        match slots[i]
        case Simple(info, v) =>
          if RefMatch(t, projectOf, ValueObject(info, v)) {
            VisitMembers(o, false, ValueObject(info, v));
            assert FoundAt(o, i, ValueObject(info, v), false);
          }
        case Nested(_, skip, child) =>
          if !skip && child.Some? {
            forall vo | Some(vo) in Visit(child.value, false) ensures !RefMatch(t, projectOf, vo) {
              VisitMembers(o, false, vo);
              assert FoundAt(o, i, vo, false);
            }
            NothingToReplace(child.value, t, projectOf, newValue);
          }
      }
  }

  /** Replacing the references to an object nobody refers to changes nothing. */
  lemma UnreferencedUnchanged(root: EezObject, t: Target, projectOf: (string, Value) -> Option<nat>, newValue: string)
    requires !Referenced(root, t, projectOf)
    ensures ReplaceObjectReference(root, t, projectOf, newValue) == root
  {
    if Active(t) {
      NothingToReplace(root, t, projectOf, newValue);
    }
  }
}
