/**
 * The data context: a chain of scopes, each with its own local variables,
 * default-value overrides and runtime values, that ends at the project's
 * global variables. Lookups go from the nearest scope outwards; a store goes
 * to the nearest scope that declares the variable, or to the root when a
 * global of that name exists.
 *
 * The pure functions over `seq<Frame>` (nearest scope first) are the
 * specification; class `DataContext` holds the state and its methods are
 * proved against them.
 */
module DataContexts {
  import opened Wrappers
  import opened JsValues
  import opened Variables
  import Strings

  /** One scope as the lookups see it. */
  datatype Frame = Frame(locals: map<string, Variable>, overrides: map<string, Value>, runtime: map<string, Value>)

  /** Why `get` gives no value: it throws, or it needs a computation the model leaves out. */
  datatype Failure = Thrown(message: string) | NotModelled

  /** The pseudo-variable `$it` that `findVariable` returns in every scope. */
  const IT_VARIABLE: Variable := Variable("$it", "integer", Num(0), Undefined, Undefined)

  /** The project's global variable of that name (the first one, if several share it). */
  function FindGlobal(globals: seq<Variable>, name: string): (r: Option<Variable>)
    ensures r.Some? ==> r.value in globals && r.value.name == name
    ensures r.None? <==> forall v :: v in globals ==> v.name != name
  {
    if |globals| == 0 then None
    else if globals[0].name == name then Some(globals[0])
    else FindGlobal(globals[1..], name)
  }

  /** `findVariable`: a local of the nearest scope declaring it, otherwise a global; `$it` always resolves to the pseudo-variable. */
  function FindVariableIn(frames: seq<Frame>, globals: seq<Variable>, name: string): Option<Variable>
    requires |frames| >= 1
  {
    var local := if name in frames[0].locals then Some(frames[0].locals[name]) else None;
    if local.None? && |frames| > 1 then FindVariableIn(frames[1..], globals, name)
    else if name == "$it" then Some(IT_VARIABLE)
    else if local.Some? then local
    else FindGlobal(globals, name)
  }

  /** The nearest scope, counting from 0, that declares `name` as a local. */
  function DeclaringScope(frames: seq<Frame>, name: string): (r: Option<nat>)
    ensures r.Some? ==> r.value < |frames| && name in frames[r.value].locals
    ensures r.Some? ==> forall i :: 0 <= i < r.value ==> name !in frames[i].locals
    ensures r.None? ==> forall i :: 0 <= i < |frames| ==> name !in frames[i].locals
  {
    if |frames| == 0 then None
    else if name in frames[0].locals then Some(0)
    else match DeclaringScope(frames[1..], name)
      case Some(k) => Some(k + 1)
      case None => None
  }

  /** Local scopes shadow globals, and `$it` shadows everything. */
  lemma {:induction false} FindVariableOrder(frames: seq<Frame>, globals: seq<Variable>, name: string)
    requires |frames| >= 1
    ensures FindVariableIn(frames, globals, name) ==
      if name == "$it" then Some(IT_VARIABLE)
      else match DeclaringScope(frames, name)
        case Some(k) => Some(frames[k].locals[name])
        case None => FindGlobal(globals, name)
  {
    if |frames| > 1 && name !in frames[0].locals {
      FindVariableOrder(frames[1..], globals, name);
      match DeclaringScope(frames[1..], name)
      case Some(k) => assert frames[1..][k] == frames[k + 1];
      case None =>
    }
  }

  /** `getRuntimeValue`: the value stored in the nearest scope that has one for the variable's name. */
  function RuntimeValueIn(frames: seq<Frame>, variable: Option<Variable>): (r: (bool, Value))
    ensures !r.0 ==> r.1 == Undefined
    ensures variable.Some? && |frames| > 0 && variable.value.name in frames[0].runtime ==>
      r == (true, frames[0].runtime[variable.value.name])
  {
    if variable.None? || |frames| == 0 then (false, Undefined)
    else if variable.value.name in frames[0].runtime then (true, frames[0].runtime[variable.value.name])
    else RuntimeValueIn(frames[1..], variable)
  }

  /** `findVariableDefaultValue`: the nearest override that is neither null nor undefined. */
  function DefaultValueIn(frames: seq<Frame>, name: string): (r: Value)
    ensures r == Undefined || (exists i :: 0 <= i < |frames| && name in frames[i].overrides && frames[i].overrides[name] == r)
  {
    if |frames| == 0 then Undefined
    else if name in frames[0].overrides && !IsNullish(frames[0].overrides[name]) then frames[0].overrides[name]
    else
      var r := DefaultValueIn(frames[1..], name);
      assert r != Undefined ==> exists i :: 1 <= i < |frames| && name in frames[i].overrides && frames[i].overrides[name] == r by {
        if r != Undefined {
          var i :| 0 <= i < |frames[1..]| && name in frames[1..][i].overrides && frames[1..][i].overrides[name] == r;
          assert frames[1..][i] == frames[i + 1];
        }
      }
      r
  }

  /** The setter's failure message. */
  function NotFound(name: string): string
  {
    "variable \"" + name + "\" not found"
  }

  /** `setRuntimeValue`: the frames after the store, or the message it throws. */
  function SetIn(frames: seq<Frame>, globals: seq<Variable>, name: string, value: Value): (r: Result<seq<Frame>, string>)
    requires |frames| >= 1
    ensures r.Ok? ==> |r.value| == |frames|
    ensures r.Ok? ==> forall i :: 0 <= i < |frames| ==>
      r.value[i].locals == frames[i].locals && r.value[i].overrides == frames[i].overrides
    ensures r.Err? <==> DeclaringScope(frames, name).None? && FindGlobal(globals, name).None?
    ensures r.Err? ==> r.error == NotFound(name)
  {
    var top := frames[0];
    if name in top.locals then Ok([top.(runtime := top.runtime[name := value])] + frames[1..])
    else if |frames| > 1 then
      match SetIn(frames[1..], globals, name, value)
      case Ok(rest) => Ok([top] + rest)
      case Err(e) => Err(e)
    else if FindGlobal(globals, name).Some? then Ok([top.(runtime := top.runtime[name := value])])
    else Err(NotFound(name))
  }

  /**
   * The scopes are well formed: a local is stored under its own name, and a
   * scope other than the root holds runtime values only for its locals.
   */
  predicate WellFormed(frames: seq<Frame>)
  {
    (forall i, n :: 0 <= i < |frames| && n in frames[i].locals ==> frames[i].locals[n].name == n) &&
    (forall i, n :: 0 <= i < |frames| - 1 && n in frames[i].runtime ==> n in frames[i].locals)
  }

  /** A stored value is what the next read of that variable finds, and the scopes stay well formed. */
  lemma {:induction false} SetThenRead(frames: seq<Frame>, globals: seq<Variable>, name: string, value: Value)
    requires |frames| >= 1 && WellFormed(frames)
    requires SetIn(frames, globals, name, value).Ok?
    ensures var fs := SetIn(frames, globals, name, value).value;
      WellFormed(fs) &&
      FindVariableIn(fs, globals, name).Some? &&
      RuntimeValueIn(fs, FindVariableIn(fs, globals, name)) == (true, value)
  {
    var fs := SetIn(frames, globals, name, value).value;
    if name !in frames[0].locals && |frames| > 1 {
      assert WellFormed(frames[1..]) by {
        forall i, n | 0 <= i < |frames[1..]| && n in frames[1..][i].locals
          ensures frames[1..][i].locals[n].name == n
        {
          assert frames[1..][i] == frames[i + 1];
        }
        forall i, n | 0 <= i < |frames[1..]| - 1 && n in frames[1..][i].runtime
          ensures n in frames[1..][i].locals
        {
          assert frames[1..][i] == frames[i + 1];
        }
      }
      SetThenRead(frames[1..], globals, name, value);
      assert fs == [frames[0]] + fs[1..];
      assert fs[1..] == SetIn(frames[1..], globals, name, value).value;
      assert name !in fs[0].runtime;
      FindVariableName(fs, globals, name);
      FindVariableName(fs[1..], globals, name);
      assert FindVariableIn(fs, globals, name) == FindVariableIn(fs[1..], globals, name);
      forall i, n | 0 <= i < |fs| && n in fs[i].locals ensures fs[i].locals[n].name == n {
        if i > 0 { assert fs[i] == fs[1..][i - 1]; }
      }
      forall i, n | 0 <= i < |fs| - 1 && n in fs[i].runtime ensures n in fs[i].locals {
        if i > 0 { assert fs[i] == fs[1..][i - 1]; }
      }
    } else {
      FindVariableName(fs, globals, name);
      forall i, n | 0 <= i < |fs| - 1 && n in fs[i].runtime ensures n in fs[i].locals {
        if i > 0 { assert fs[i] == frames[i]; }
      }
    }
  }

  /** In well-formed scopes, whatever `findVariable(name)` returns is named `name`. */
  lemma {:induction false} FindVariableName(frames: seq<Frame>, globals: seq<Variable>, name: string)
    requires |frames| >= 1
    requires forall i, n :: 0 <= i < |frames| && n in frames[i].locals ==> frames[i].locals[n].name == n
    ensures FindVariableIn(frames, globals, name).Some? ==> FindVariableIn(frames, globals, name).value.name == name
    ensures DeclaringScope(frames, name).Some? || FindGlobal(globals, name).Some? || name == "$it" ==>
      FindVariableIn(frames, globals, name).Some?
  {
    if |frames| > 1 && name !in frames[0].locals {
      assert forall i, n :: 0 <= i < |frames[1..]| && n in frames[1..][i].locals ==> frames[1..][i].locals[n].name == n by {
        forall i, n | 0 <= i < |frames[1..]| && n in frames[1..][i].locals ensures frames[1..][i].locals[n].name == n {
          assert frames[1..][i] == frames[i + 1];
        }
      }
      FindVariableName(frames[1..], globals, name);
    }
  }

  /** A store changes no other name's runtime value. */
  lemma {:induction false} SetLeavesOthers(frames: seq<Frame>, globals: seq<Variable>, name: string, value: Value, other: Variable)
    requires |frames| >= 1 && other.name != name
    requires SetIn(frames, globals, name, value).Ok?
    ensures RuntimeValueIn(SetIn(frames, globals, name, value).value, Some(other)) == RuntimeValueIn(frames, Some(other))
  {
    var fs := SetIn(frames, globals, name, value).value;
    if name !in frames[0].locals && |frames| > 1 {
      SetLeavesOthers(frames[1..], globals, name, value, other);
      assert fs[1..] == SetIn(frames[1..], globals, name, value).value;
    }
  }

  // ---------------------------------------------------------------------------
  // Reading a (dotted) name

  /** `toString()` of a default value; null has none and throws. */
  function ToStringOf(v: Value): Result<string, Failure>
  {
    match v
    case Str(s) => Ok(s)
    case Bool(b) => Ok(if b then "true" else "false")
    case Num(n) => Ok(Strings.IntToString(n))
    case Null => Err(Thrown("Cannot read properties of null (reading 'toString')"))
    case Undefined => Err(Thrown("Cannot read properties of undefined (reading 'toString')"))
    case _ => Err(NotModelled)
  }

  /** The number 10^21, from which JavaScript writes integers in exponent form. */
  const EXPONENT_FORM: int := 1_000_000_000_000_000_000_000

  /** `parseInt(v)`; NaN is the opaque number "NaN". */
  function ParseIntOf(v: Value): Result<Value, Failure>
  {
    match v
    case Str(s) => Ok(match Strings.ParseInt(s) case Some(n) => Num(n) case None => Opaque("NaN"))
    case Num(n) => if -EXPONENT_FORM < n < EXPONENT_FORM then Ok(Num(n)) else Err(NotModelled)
    case Bool(_) => Ok(Opaque("NaN"))
    case Null => Ok(Opaque("NaN"))
    case Undefined => Ok(Opaque("NaN"))
    case _ => Err(NotModelled)
  }

  /** The boolean a default value's text denotes: "1"/"true" and "0"/"false", after trimming white space and lower-casing ASCII letters. */
  function BooleanDefault(text: string): (r: Value)
    ensures r == Bool(true) <==> Strings.ToLower(Strings.Trim(text)) in {"1", "true"}
    ensures r == Bool(false) <==> Strings.ToLower(Strings.Trim(text)) in {"0", "false"}
    ensures r != Bool(true) && r != Bool(false) ==> r == Undefined
  {
    var t := Strings.ToLower(Strings.Trim(text));
    if t == "1" || t == "true" then Bool(true)
    else if t == "0" || t == "false" then Bool(false)
    else Undefined
  }

  /** The value `get` reads for a variable that has no runtime value, from its default by type. */
  function DefaultOf(variable: Variable, override: Value): Result<Value, Failure>
  {
    var d := if IsNullish(override) then variable.defaultValue else override;
    if d == Undefined then Ok(Undefined)
    else if IsIntegerType(variable.varType) then ParseIntOf(d)
    else if IsEnumType(variable.varType) then Ok(d)
    else if variable.varType == "float" then Err(NotModelled)
    else if variable.varType == "boolean" then
      match ToStringOf(d)
      case Ok(text) => Ok(BooleanDefault(text))
      case Err(e) => Err(e)
    else if variable.varType == "array" then
      if d.Str? then Err(NotModelled) else Ok(d)
    else Ok(d)
  }

  /** The value of the first segment of a dotted name. */
  function BaseValue(frames: seq<Frame>, globals: seq<Variable>, name: string): Result<Value, Failure>
    requires |frames| >= 1
  {
    var variable := FindVariableIn(frames, globals, name);
    var (hasValue, stored) := RuntimeValueIn(frames, variable);
    if variable.None? then Ok(Undefined)
    else if hasValue then Ok(stored)
    else DefaultOf(variable.value, DefaultValueIn(frames, name))
  }

  /** The remaining segments, as fields; a null or undefined value ends the walk. */
  function Walk(value: Value, fields: seq<string>): Result<Value, Failure>
    decreases |fields|
  {
    if |fields| == 0 || IsNullish(value) then Ok(value)
    else match Property(value, StrKey(fields[0]))
      case None => Err(NotModelled)
      case Some(v) => Walk(v, fields[1..])
  }

  /** `DataContext.get`. */
  function GetIn(frames: seq<Frame>, globals: seq<Variable>, path: string): Result<Value, Failure>
    requires |frames| >= 1
  {
    if path == "" then Ok(Undefined)
    else
      var parts := Strings.Split(path, '.');
      match BaseValue(frames, globals, parts[0])
      case Err(e) => Err(e)
      case Ok(v) => Walk(v, parts[1..])
  }

  /** Reading a plain name just stored gives back the stored value. */
  lemma SetThenGet(frames: seq<Frame>, globals: seq<Variable>, name: string, value: Value)
    requires |frames| >= 1 && WellFormed(frames) && name != "" && '.' !in name
    requires SetIn(frames, globals, name, value).Ok?
    ensures GetIn(SetIn(frames, globals, name, value).value, globals, name) == Ok(value)
  {
    SetThenRead(frames, globals, name, value);
    Strings.SplitWithoutSeparator(name, '.');
  }

  /** A boolean default is read as true for "1"/"true", false for "0"/"false", and undefined otherwise. */
  lemma BooleanDefaults(variable: Variable, s: string)
    requires variable.varType == "boolean" && variable.defaultValue == Str(s)
    ensures DefaultOf(variable, Undefined) == Ok(BooleanDefault(s))
  {
    assert !IsEnumType(variable.varType) by {
      assert variable.varType[0] == 'b';
    }
  }

  /** `getBool`: only `true` or a nonzero integer reads as true. */
  function BoolOf(v: Value): (r: bool)
    ensures r <==> v == Bool(true) || (v.Num? && v.n != 0)
  {
    match v
    case Bool(b) => b
    case Num(n) => n != 0
    case _ => false
  }

  // ---------------------------------------------------------------------------
  // The scopes themselves

  class DataContext {
    const globals: seq<Variable>
    const parent: Option<DataContext>
    const overrides: map<string, Value>
    const locals: map<string, Variable>
    var runtimeValues: map<string, Value>
    /** The distance from the root, which makes the parent chain finite. */
    ghost const depth: nat

    ghost predicate Valid()
      decreases depth
    {
      (forall n :: n in locals ==> locals[n].name == n) &&
      match parent
      case None => true
      case Some(p) => p.depth < depth && p.globals == globals && p.Valid()
    }

    /** This scope and its ancestors. */
    ghost function Chain(): (r: set<DataContext>)
      requires Valid()
      decreases depth
      ensures this in r
      ensures forall c :: c in r ==> c.depth <= depth && c.Valid()
    {
      match parent
      case None => {this}
      case Some(p) => {this} + p.Chain()
    }

    /** The scopes from this one to the root, as the specification sees them. */
    function Frames(): (r: seq<Frame>)
      requires Valid()
      reads Chain()
      decreases depth
      ensures |r| >= 1 && r[0] == Frame(locals, overrides, runtimeValues)
    {
      match parent
      case None => [Frame(locals, overrides, runtimeValues)]
      case Some(p) => [Frame(locals, overrides, runtimeValues)] + p.Frames()
    }

    /** The root scope of a project. */
    constructor Root(globals: seq<Variable>)
      ensures Valid() && this.globals == globals && parent.None?
      ensures Frames() == [Frame(map[], map[], map[])]
    {
      this.globals := globals;
      parent := None;
      overrides := map[];
      locals := map[];
      runtimeValues := map[];
      depth := 0;
    }

    constructor Child(p: DataContext, overrides: map<string, Value>, locals: map<string, Variable>)
      requires p.Valid() && forall n :: n in locals ==> locals[n].name == n
      ensures Valid() && globals == p.globals && parent == Some(p)
      ensures Frames() == [Frame(locals, overrides, map[])] + p.Frames()
    {
      globals := p.globals;
      parent := Some(p);
      this.overrides := overrides;
      this.locals := locals;
      runtimeValues := map[];
      depth := p.depth + 1;
    }

    /** `createWithDefaultValueOverrides`. */
    method CreateWithDefaultValueOverrides(overrides: map<string, Value>) returns (c: DataContext)
      requires Valid()
      ensures fresh(c) && c.Valid() && c.parent == Some(this)
      ensures c.Frames() == [Frame(map[], overrides, map[])] + Frames()
    {
      c := new DataContext.Child(this, overrides, map[]);
    }

    /** `createWithLocalVariables`: the locals keyed by name, a later duplicate winning. */
    method CreateWithLocalVariables(variables: seq<Variable>) returns (c: DataContext)
      requires Valid()
      ensures fresh(c) && c.Valid() && c.parent == Some(this)
      ensures c.Frames() == [Frame(ByName(variables, VariableName), map[], map[])] + Frames()
    {
      var locals := IndexByName(variables, VariableName);
      ByNameFacts(variables, VariableName);
      c := new DataContext.Child(this, map[], locals);
    }

    /** `setRuntimeValue`: `error` holds the message the source throws. */
    method SetRuntimeValue(name: string, value: Value) returns (error: Option<string>)
      requires Valid()
      modifies Chain()
      decreases depth
      ensures Valid()
      ensures match SetIn(old(Frames()), globals, name, value)
        case Ok(fs) => error.None? && Frames() == fs
        case Err(e) => error == Some(e) && Frames() == old(Frames())
    {
      error := None;
      if name in locals {
        runtimeValues := runtimeValues[name := value];
      } else if parent.Some? {
        var p := parent.value;
        assert this !in p.Chain();
        error := p.SetRuntimeValue(name, value);
      } else if FindGlobal(globals, name).Some? {
        runtimeValues := runtimeValues[name := value];
      } else {
        error := Some(NotFound(name));
      }
    }

    /** `clearRuntimeValues`: empties this scope's store only. */
    method ClearRuntimeValues()
      requires Valid()
      modifies this
      ensures Valid()
      ensures Frames() == [Frame(locals, overrides, map[])] + old(Frames())[1..]
    {
      if parent.Some? {
        assert this !in parent.value.Chain();
      }
      runtimeValues := map[];
    }

    /** `get`, walking the dotted path in a loop. */
    method Get(path: string) returns (r: Result<Value, Failure>)
      requires Valid()
      ensures r == GetIn(Frames(), globals, path)
    {
      if path == "" {
        return Ok(Undefined);
      }
      var parts := Strings.Split(path, '.');
      var base := BaseValue(Frames(), globals, parts[0]);
      if base.Err? {
        return Err(base.error);
      }
      var value := base.value;
      var i := 1;
      while i < |parts|
        invariant 1 <= i <= |parts|
        invariant Walk(value, parts[i..]) == Walk(base.value, parts[1..])
      {
        if IsNullish(value) {
          return Ok(value);
        }
        var p := Property(value, StrKey(parts[i]));
        if p.None? {
          return Err(NotModelled);
        }
        assert parts[i..][1..] == parts[i + 1..];
        value := p.value;
        i := i + 1;
      }
      return Ok(value);
    }

    /** `getBool`. */
    method GetBool(name: string) returns (r: Result<bool, Failure>)
      requires Valid()
      ensures match GetIn(Frames(), globals, name)
        case Ok(v) => r == Ok(BoolOf(v))
        case Err(e) => r == Err(e)
    {
      var v := Get(name);
      if v.Err? {
        return Err(v.error);
      }
      return Ok(BoolOf(v.value));
    }

    /** `getMin`: the variable's minimum, 0 for an unknown name. */
    function GetMin(name: string): (r: Value)
      requires Valid()
      reads Chain()
      ensures FindVariableIn(Frames(), globals, name).None? ==> r == Num(0)
      ensures FindVariableIn(Frames(), globals, name).Some? ==> r == FindVariableIn(Frames(), globals, name).value.defaultMinValue
    {
      match FindVariableIn(Frames(), globals, name)
      case Some(v) => v.defaultMinValue
      case None => Num(0)
    }

    /** `getMax`: the variable's maximum, 1 for an unknown name. */
    function GetMax(name: string): (r: Value)
      requires Valid()
      reads Chain()
      ensures FindVariableIn(Frames(), globals, name).None? ==> r == Num(1)
      ensures FindVariableIn(Frames(), globals, name).Some? ==> r == FindVariableIn(Frames(), globals, name).value.defaultMaxValue
    {
      match FindVariableIn(Frames(), globals, name)
      case Some(v) => v.defaultMaxValue
      case None => Num(1)
    }
  }

  /** The frames of a valid context chain are well formed as long as runtime values are only stored through `SetRuntimeValue`. */
  lemma SetKeepsWellFormed(frames: seq<Frame>, globals: seq<Variable>, name: string, value: Value)
    requires |frames| >= 1 && WellFormed(frames) && SetIn(frames, globals, name, value).Ok?
    ensures WellFormed(SetIn(frames, globals, name, value).value)
  {
    SetThenRead(frames, globals, name, value);
  }
}
