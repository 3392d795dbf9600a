/**
 * The JavaScript values the expression evaluators and the data context
 * handle, and the parts of JavaScript's semantics on them that the model
 * computes exactly: truthiness, loose equality, `+` on numbers and strings,
 * relational comparison and property access.
 *
 * Numbers are integral (`Num`); every computation whose JavaScript result is
 * not an integer, or which needs a coercion the model leaves out, yields
 * `None` from the helpers below, which the evaluators report as "not modelled".
 */
module JsValues {
  import opened Wrappers
  import Strings

  datatype Value =
    | Undefined
    | Null
    | Bool(b: bool)
    | Num(n: int)
    | Str(s: string)
    | Arr(elements: seq<Value>)
    | Obj(fields: map<string, Value>)
      /** A non-integral number, such as `Math.PI`, named by `name`; the model does not compute with it. */
    | Opaque(name: string)

  /** JavaScript truthiness: false, 0, "", null and undefined are falsy. */
  predicate Truthy(v: Value)
  {
    match v
    case Undefined => false
    case Null => false
    case Bool(b) => b
    case Num(n) => n != 0
    case Str(s) => s != ""
    case Arr(_) => true
    case Obj(_) => true
    case Opaque(_) => true
  }

  /** `v == undefined` in JavaScript: true for undefined and null. */
  predicate IsNullish(v: Value)
  {
    v.Undefined? || v.Null?
  }

  predicate IsPrimitive(v: Value)
  {
    !(v.Arr? || v.Obj?)
  }

  /** JavaScript `a == b`, where it needs no coercion or object identity. */
  function LooseEquals(a: Value, b: Value): (r: Option<bool>)
    ensures r.Some? && a == b && IsPrimitive(a) ==> r.value
    ensures IsNullish(a) && !IsNullish(b) ==> r == Some(false)
  {
    if IsNullish(a) || IsNullish(b) then Some(IsNullish(a) && IsNullish(b))
    else match (a, b)
      case (Num(x), Num(y)) => Some(x == y)
      case (Str(x), Str(y)) => Some(x == y)
      case (Bool(x), Bool(y)) => Some(x == y)
      case (Opaque(x), Opaque(y)) => if x == y then Some(true) else None
      case (Opaque(_), Num(_)) => Some(false)
      case (Num(_), Opaque(_)) => Some(false)
      case _ => None
  }

  /** Strict lexicographic order on characters, the order `<` gives strings whose characters all lie in the Basic Multilingual Plane. */
  predicate StringLess(x: string, y: string)
  {
    if |x| == 0 then |y| > 0
    else if |y| == 0 then false
    else if x[0] != y[0] then x[0] < y[0]
    else StringLess(x[1..], y[1..])
  }

  lemma {:induction false} StringLessIrreflexive(x: string)
    ensures !StringLess(x, x)
  {
    if |x| > 0 {
      StringLessIrreflexive(x[1..]);
    }
  }

  lemma {:induction false} StringLessAsymmetric(x: string, y: string)
    ensures StringLess(x, y) ==> !StringLess(y, x)
  {
    if |x| > 0 && |y| > 0 && x[0] == y[0] {
      StringLessAsymmetric(x[1..], y[1..]);
    }
  }

  /** Two different strings are ordered one way or the other. */
  lemma {:induction false} StringLessTotal(x: string, y: string)
    ensures x != y ==> StringLess(x, y) || StringLess(y, x)
  {
    if |x| > 0 && |y| > 0 && x[0] == y[0] {
      StringLessTotal(x[1..], y[1..]);
      if x != y {
        assert x == [x[0]] + x[1..] && y == [y[0]] + y[1..];
      }
    }
  }

  lemma {:induction false} StringLessTransitive(x: string, y: string, z: string)
    requires StringLess(x, y) && StringLess(y, z)
    ensures StringLess(x, z)
  {
    if |x| > 0 && x[0] == y[0] && y[0] == z[0] {
      StringLessTransitive(x[1..], y[1..], z[1..]);
    }
  }

  datatype Relation = Lt | Gt | Le | Ge

  /** JavaScript `<`, `>`, `<=`, `>=` on two numbers or two strings. */
  function Compare(rel: Relation, a: Value, b: Value): Option<bool>
  {
    match (a, b)
    case (Num(x), Num(y)) =>
      Some(match rel case Lt => x < y case Gt => x > y case Le => x <= y case Ge => x >= y)
    case (Str(x), Str(y)) =>
      Some(match rel
        case Lt => StringLess(x, y)
        case Gt => StringLess(y, x)
        case Le => !StringLess(y, x)
        case Ge => !StringLess(x, y))
    case _ => None
  }

  /** JavaScript `a + b` on numbers and strings; a number joins a string as its decimal text. */
  function Plus(a: Value, b: Value): Option<Value>
  {
    match (a, b)
    case (Num(x), Num(y)) => Some(Num(x + y))
    case (Str(x), Str(y)) => Some(Str(x + y))
    case (Str(x), Num(y)) => Some(Str(x + Strings.IntToString(y)))
    case (Num(x), Str(y)) => Some(Str(Strings.IntToString(x) + y))
    case _ => None
  }

  /** A property key: `obj[k]` with a number, or `obj.name` / `obj["name"]` with a string. */
  datatype Key = NumKey(index: int) | StrKey(name: string)

  /** The array index a property name denotes: the canonical decimal text of a natural number. */
  function CanonicalIndex(name: string): Option<nat>
  {
    match Strings.ParseInt(name)
    case Some(n) => if n >= 0 && Strings.IntToString(n) == name then Some(n) else None
    case None => None
  }

  /**
   * JavaScript `obj[key]` for arrays (elements and `length`), strings
   * (characters and `length`) and plain objects (own fields); any other
   * receiver, or a key naming a prototype member, is not modelled.
   */
  function Property(obj: Value, key: Key): Option<Value>
  {
    match obj
    case Arr(es) => IndexedProperty(key, |es|, i requires 0 <= i < |es| => es[i])
    case Str(s) => IndexedProperty(key, |s|, i requires 0 <= i < |s| => Str([s[i]]))
    case Obj(fs) =>
      var k := match key case StrKey(k) => k case NumKey(i) => Strings.IntToString(i);
      Some(if k in fs then fs[k] else Undefined)
    case _ => None
  }

  /** A property of an array-like value with `length` elements, element `i` being `at(i)`. */
  function IndexedProperty(key: Key, length: nat, at: int --> Value): Option<Value>
    requires forall i :: 0 <= i < length ==> at.requires(i)
  {
    match key
    case NumKey(i) => Some(if 0 <= i < length then at(i) else Undefined)
    case StrKey(k) =>
      if k == "length" then Some(Num(length))
      else match CanonicalIndex(k)
        case Some(i) => Some(if i < length then at(i) else Undefined)
        case None => None
  }

  /** An index key and its decimal text select the same array element. */
  lemma IndexKeysAgree(es: seq<Value>, i: nat)
    ensures Property(Arr(es), StrKey(Strings.IntToString(i))) == Property(Arr(es), NumKey(i))
  {
    IndexText(i);
    IndexedKeysAgree(|es|, i requires 0 <= i < |es| => es[i], i, Strings.IntToString(i));
  }

  /** The decimal text of a natural number is its canonical index, and not `length`. */
  lemma IndexText(i: nat)
    ensures CanonicalIndex(Strings.IntToString(i)) == Some(i)
    ensures Strings.IntToString(i) != "length"
  {
    var k := Strings.IntToString(i);
    Strings.ParseIntRoundTrip(i);
    Strings.DecimalDigitsAreDigits(i);
    assert Strings.IsDigit(k[0]);
  }

  lemma IndexedKeysAgree(length: nat, at: int --> Value, i: nat, k: string)
    requires forall j :: 0 <= j < length ==> at.requires(j)
    requires CanonicalIndex(k) == Some(i) && k != "length"
    ensures IndexedProperty(StrKey(k), length, at) == IndexedProperty(NumKey(i), length, at)
  {
  }

  /** JavaScript `${v}` in a template literal, for values whose text the model computes. */
  function TemplateText(v: Value): (r: Option<string>)
    ensures v.Str? ==> r == Some(v.s)
    ensures r.None? <==> v.Arr? || v.Obj? || v.Opaque?
  {
    match v
    case Undefined => Some("undefined")
    case Null => Some("null")
    case Bool(b) => Some(if b then "true" else "false")
    case Num(n) => Some(Strings.IntToString(n))
    case Str(s) => Some(s)
    case _ => None
  }

  /** A field of a plain object, undefined when it is absent. */
  function FieldOf(fields: map<string, Value>, key: string): Value
  {
    if key in fields then fields[key] else Undefined
  }

  /** A plain JavaScript object that a load hook edits in place. */
  class JsObject {
    var fields: map<string, Value>

    constructor(fields: map<string, Value>)
      ensures this.fields == fields
    {
      this.fields := fields;
    }
  }
}
