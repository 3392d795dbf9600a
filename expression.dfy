/**
 * Expression trees of the flow expression language and the type-inference
 * pass that writes a `valueType` into each node.
 *
 * The parser is not part of this model: its output, a tree whose node kinds
 * are closed, is the input. Each node carries a `valueType` slot; None is a
 * slot the parser or the pass left unset (JavaScript `undefined`).
 */
module Expressions {
  import opened Wrappers
  import opened JsValues
  import opened Variables
  import Operations
  import Strings

  datatype Expr =
    | Literal(value: Value, valueType: Option<string>)
    | Identifier(name: string, valueType: Option<string>)
    | Binary(operator: string, left: Expr, right: Expr, valueType: Option<string>)
    | Logical(operator: string, left: Expr, right: Expr, valueType: Option<string>)
    | ArrayExpr(elements: seq<Expr>, valueType: Option<string>)
    | ObjectExpr(properties: seq<Property>, valueType: Option<string>)
    | Member(obj: Expr, property: Expr, computed: bool, valueType: Option<string>)
    | Call(callee: Expr, arguments: seq<Expr>, valueType: Option<string>)
    | Conditional(test: Expr, consequent: Expr, alternate: Expr, valueType: Option<string>)
    | Unary(operator: string, argument: Expr, valueType: Option<string>)
      /** Any other node kind the parser can produce, such as "__Unknown". */
    | Unknown(nodeType: string, valueType: Option<string>)

  /** The message every pass throws on a node kind it does not handle. */
  function UnknownNode(nodeType: string): string
  {
    "Unknown expression node \"" + nodeType + "\""
  }

  /**
   * The `expression` argument of the entry points: undefined, a number, or
   * text for the parser.
   */
  datatype Source = Missing | NumberSource(n: Value) | Text(text: string)

  /**
   * The parser's result, its error rethrown as "Expression error: ...".
   * The grammar is not part of this model: `parse` stands for it.
   */
  function Parse(parse: string -> Result<Expr, string>, text: string): (r: Result<Expr, string>)
    ensures parse(text).Ok? ==> r == parse(text)
    ensures parse(text).Err? ==> r == Err("Expression error: " + parse(text).error)
  {
    match parse(text)
    case Ok(root) => Ok(root)
    case Err(m) => Err("Expression error: " + m)
  }

  /** An object literal entry `key: value`. */
  datatype Property = Property(key: string, value: Expr)

  /** The node's `type` tag. */
  function NodeType(e: Expr): string
  {
    match e
    case Literal(_, _) => "Literal"
    case Identifier(_, _) => "Identifier"
    case Binary(_, _, _, _) => "BinaryExpression"
    case Logical(_, _, _, _) => "LogicalExpression"
    case ArrayExpr(_, _) => "ArrayExpression"
    case ObjectExpr(_, _) => "ObjectExpression"
    case Member(_, _, _, _) => "MemberExpression"
    case Call(_, _, _) => "CallExpression"
    case Conditional(_, _, _, _) => "ConditionalExpression"
    case Unary(_, _, _) => "UnaryExpression"
    case Unknown(t, _) => t
  }

  /** The operator of a BinaryExpression: looked up among the binary operators, then the logical ones. */
  datatype BinaryOperatorOf = Arithmetic(arith: Operations.BinaryOp) | Comparison(logic: Operations.LogicalOp)

  function BinaryExpressionOperator(symbol: string): Option<BinaryOperatorOf>
  {
    match Operations.BinaryOperator(symbol)
    case Some(op) => Some(Arithmetic(op))
    case None =>
      match Operations.LogicalOperator(symbol)
      case Some(op) => Some(Comparison(op))
      case None => None
  }

  function BinaryOperatorName(op: BinaryOperatorOf): string
  {
    match op
    case Arithmetic(b) => Operations.BinaryName(b)
    case Comparison(l) => Operations.LogicalName(l)
  }

  /** The qualified name `obj.property` of a call's callee or a constant, when both parts are identifiers. */
  function QualifiedName(obj: Expr, property: Expr): Option<string>
  {
    if obj.Identifier? && property.Identifier? then Some(obj.name + "." + property.name) else None
  }

  /** A call's callee: a MemberExpression of two identifiers, else None. */
  function CalleeName(callee: Expr): Option<string>
  {
    if callee.Member? then QualifiedName(callee.obj, callee.property) else None
  }

  /** The shape, registration and arity checks every pass applies to a call, with their messages. */
  function ResolveCall(callee: Expr, argumentCount: nat): Result<Operations.BuiltInFunction, string>
  {
    match CalleeName(callee)
    case None => Err("Invalid call expression")
    case Some(name) =>
      match Operations.FunctionNamed(name)
      case None => Err("Unknown function '" + name + "'")
      case Some(f) =>
        if argumentCount != Operations.Arity(f) then
          Err("In function '" + name + "' call expected " + Strings.IntToString(Operations.Arity(f)) +
            " arguments, but got " + Strings.IntToString(argumentCount))
        else Ok(f)
  }

  lemma ResolveCallOk(callee: Expr, argumentCount: nat)
    ensures ResolveCall(callee, argumentCount).Ok? <==>
      CalleeName(callee).Some? && Operations.FunctionNamed(CalleeName(callee).value).Some? &&
      argumentCount == Operations.Arity(Operations.FunctionNamed(CalleeName(callee).value).value)
    ensures ResolveCall(callee, argumentCount).Ok? ==>
      Operations.FunctionName(ResolveCall(callee, argumentCount).value) == CalleeName(callee).value
  {
    if ResolveCall(callee, argumentCount).Ok? {
      var name := CalleeName(callee).value;
      var f := Operations.FunctionNamed(name).value;
      var i :| 0 <= i < |Operations.BUILT_IN_FUNCTIONS| && Operations.BUILT_IN_FUNCTIONS[i] == (name, f);
    }
  }

  // ---------------------------------------------------------------------------
  // The inference environment

  /** The component owning the expression: its declared inputs and its inputs and outputs as built. */
  datatype Component = Component(inputs: seq<string>, buildInputs: seq<string>, buildOutputs: seq<string>)

  /** What inference sees: the component, its flow's local variables, and the project's variables. */
  datatype Scope = Scope(component: Component, localVariables: seq<Variable>, project: ProjectVariables)

  /** `list.find(x => x.name == name)`. */
  function FindNamed<T>(items: seq<T>, key: T -> string, name: string): (r: Option<T>)
    ensures r.Some? ==> r.value in items && key(r.value) == name
    ensures r.None? <==> forall x :: x in items ==> key(x) != name
  {
    if |items| == 0 then None
    else if key(items[0]) == name then Some(items[0])
    else FindNamed(items[1..], key, name)
  }

  /** `list.findIndex(x => x.name == name)`, None standing for -1. */
  function FindIndex<T>(items: seq<T>, key: T -> string, name: string): (r: Option<nat>)
    ensures r.Some? ==> r.value < |items| && key(items[r.value]) == name
    ensures r.Some? ==> forall j :: 0 <= j < r.value ==> key(items[j]) != name
    ensures r.None? ==> forall j :: 0 <= j < |items| ==> key(items[j]) != name
  {
    if |items| == 0 then None
    else if key(items[0]) == name then Some(0)
    else match FindIndex(items[1..], key, name)
      case Some(k) => Some(k + 1)
      case None => None
  }

  function FieldName(f: StructureField): string { f.name }


  /**
   * The type names the operator rules compare against. A missing type
   * compares unequal to every type name, exactly as `undefined` does, and
   * so does the empty string.
   */
  function TypeText(t: Option<string>): string { t.GetOr("") }

  function LiteralType(v: Value): string
  {
    match v
    case Bool(_) => "boolean"
    case Num(_) => "double"
    case Opaque(_) => "double"
    case Str(_) => "string"
    case _ => "undefined"
  }

  function UndefinedRead(property: string): string
  {
    "TypeError: Cannot read properties of undefined (reading '" + property + "')"
  }

  /** The type of an identifier, first match wins. */
  function IdentifierType(scope: Scope, name: string, assignable: bool): Result<string, string>
  {
    if assignable && name in scope.component.buildOutputs then Ok("any")
    else if !assignable && name in scope.component.buildInputs then Ok("any")
    else match FindNamed(scope.localVariables, VariableName, name)
      case Some(v) => Ok(v.varType)
      case None =>
        match FindNamed(scope.project.globalVariables, VariableName, name)
        case Some(v) => Ok(v.varType)
        case None =>
          if name in EnumTable(scope.project) then Ok("enum:" + name)
          else Err("identifier '" + name + "' is neither input or local or global variable or enum")
  }

  /**
   * The structure a non-enum, non-computed member access looks up: the name
   * after "struct:", or the whole type when there is no prefix or the name
   * after it is empty (`getStructTypeNameFromType(type) || type`).
   */
  function StructNameOf(t: string): string
  {
    match GetStructTypeNameFromType(t) case Some(n) => if n == "" then t else n case None => t
  }

  /** The type of `obj.property` / `obj[property]` given the object's type. */
  function MemberType(scope: Scope, objectType: Option<string>, property: Expr, computed: bool): Result<string, string>
  {
    match objectType
    case None => Err(UndefinedRead("match"))
    case Some(t) =>
      if IsEnumType(t) then
        var enumName := GetEnumTypeNameFromType(t).value;
        if !property.Identifier? then Err("Invalid enum field type: '" + NodeType(property) + "'")
        else if enumName !in EnumTable(scope.project) then Err(UndefinedRead("membersMap"))
        else if property.name !in ByName(EnumTable(scope.project)[enumName].members, MemberName) then
          Err("Enum member '" + property.name + "' not found in enum '" + enumName + "'")
        else Ok("integer")
      else if computed then
        var element := GetArrayElementTypeFromType(t);
        if element.None? || element.value == "" then Err("Array type expected but found '" + t + "'")
        else Ok(element.value)
      else
        var structName := StructNameOf(t);
        if structName !in StructTable(scope.project) then Err("Struct type expected but found '" + t + "'")
        else if !property.Identifier? then Err("Invalid struct field type: '" + NodeType(property) + "'")
        else match FindNamed(StructTable(scope.project)[structName].fields, FieldName, property.name)
          case None => Err("Struc field not found: '" + property.name + "'")
          case Some(field) => Ok(field.fieldType)
  }

  /** The `getValueType` rule of a BinaryExpression's operator. */
  function BinaryNodeType(operator: BinaryOperatorOf, l: Option<string>, r: Option<string>): string
  {
    match operator
    case Arithmetic(b) => Operations.BinaryValueType(b, TypeText(l), TypeText(r))
    case Comparison(c) => Operations.LogicalValueType(c, TypeText(l), TypeText(r))
  }

  /**
   * `findValueTypeInExpressionNode`: the tree with its `valueType` slots
   * filled in, or the message the pass throws. Nodes the pass does not visit
   * (a conditional's test, a call's callee, a member's property) and the
   * slots of array and object literals keep what they had.
   */
  function Infer(scope: Scope, e: Expr, assignable: bool): Result<Expr, string>
    decreases e, 1
  {
    match e
    case Literal(v, _) => Ok(Literal(v, Some(LiteralType(v))))
    case Identifier(name, _) =>
      var t :- IdentifierType(scope, name, assignable);
      Ok(Identifier(name, Some(t)))
    case Binary(op, l, r, _) =>
      var operator := BinaryExpressionOperator(op);
      if operator.None? then Err("Unknown binary operator '" + op + "'")
      else
        var l' :- Infer(scope, l, assignable);
        var r' :- Infer(scope, r, assignable);
        Ok(Binary(op, l', r', Some(BinaryNodeType(operator.value, l'.valueType, r'.valueType))))
    case Logical(op, l, r, _) =>
      var operator := Operations.LogicalOperator(op);
      if operator.None? then Err("Unknown logical operator '" + op + "'")
      else
        var l' :- Infer(scope, l, assignable);
        var r' :- Infer(scope, r, assignable);
        Ok(Logical(op, l', r', Some(Operations.LogicalValueType(operator.value, TypeText(l'.valueType), TypeText(r'.valueType)))))
    case Unary(op, a, _) =>
      var operator := Operations.UnaryOperator(op);
      if operator.None? then Err("Unknown unary operator '" + op + "'")
      else
        var a' :- Infer(scope, a, assignable);
        Ok(Unary(op, a', Some(Operations.UnaryValueType(operator.value, TypeText(a'.valueType)))))
    case Conditional(test, c, a, _) =>
      var c' :- Infer(scope, c, assignable);
      var a' :- Infer(scope, a, assignable);
      if c'.valueType != a'.valueType then Err("different types in conditional")
      else Ok(Conditional(test, c', a', c'.valueType))
    case Call(callee, args, _) =>
      var f :- ResolveCall(callee, |args|);
      var args' :- InferAll(scope, args, assignable);
      Ok(Call(callee, args', Some(Operations.FunctionValueType(f, Types(args')))))
    case Member(obj, property, computed, _) =>
      var obj' :- Infer(scope, obj, assignable);
      var t :- MemberType(scope, obj'.valueType, property, computed);
      Ok(Member(obj', property, computed, Some(t)))
    case ArrayExpr(elements, slot) =>
      var elements' :- InferAll(scope, elements, assignable);
      Ok(ArrayExpr(elements', slot))
    case ObjectExpr(properties, slot) =>
      var properties' :- InferProperties(scope, properties, assignable);
      Ok(ObjectExpr(properties', slot))
    case Unknown(t, _) => Err(UnknownNode(t))
  }

  /** Inference over a list of nodes, left to right; the first throw ends it. */
  function InferAll(scope: Scope, es: seq<Expr>, assignable: bool): (r: Result<seq<Expr>, string>)
    decreases es, 0
    ensures r.Ok? ==> |r.value| == |es|
  {
    if |es| == 0 then Ok([])
    else
      var head :- Infer(scope, es[0], assignable);
      var tail :- InferAll(scope, es[1..], assignable);
      Ok([head] + tail)
  }

  function InferProperties(scope: Scope, ps: seq<Property>, assignable: bool): (r: Result<seq<Property>, string>)
    decreases ps, 0
    ensures r.Ok? ==> |r.value| == |ps| && forall i :: 0 <= i < |ps| ==> r.value[i].key == ps[i].key
  {
    if |ps| == 0 then Ok([])
    else
      var head :- Infer(scope, ps[0].value, assignable);
      var tail :- InferProperties(scope, ps[1..], assignable);
      Ok([Property(ps[0].key, head)] + tail)
  }

  function Types(es: seq<Expr>): (r: seq<string>)
    ensures |r| == |es|
  {
    seq(|es|, i requires 0 <= i < |es| => TypeText(es[i].valueType))
  }

  // ---------------------------------------------------------------------------
  // Properties of inference

  /** The tree with every `valueType` slot cleared: what inference must not change. */
  function Erase(e: Expr): Expr
  {
    match e
    case Literal(v, _) => Literal(v, None)
    case Identifier(n, _) => Identifier(n, None)
    case Binary(op, l, r, _) => Binary(op, Erase(l), Erase(r), None)
    case Logical(op, l, r, _) => Logical(op, Erase(l), Erase(r), None)
    case ArrayExpr(es, _) => ArrayExpr(EraseAll(es), None)
    case ObjectExpr(ps, _) => ObjectExpr(EraseProperties(ps), None)
    case Member(o, p, c, _) => Member(Erase(o), Erase(p), c, None)
    case Call(callee, args, _) => Call(Erase(callee), EraseAll(args), None)
    case Conditional(t, c, a, _) => Conditional(Erase(t), Erase(c), Erase(a), None)
    case Unary(op, a, _) => Unary(op, Erase(a), None)
    case Unknown(t, _) => Unknown(t, None)
  }

  function EraseAll(es: seq<Expr>): seq<Expr>
  {
    if |es| == 0 then [] else [Erase(es[0])] + EraseAll(es[1..])
  }

  function EraseProperties(ps: seq<Property>): seq<Property>
  {
    if |ps| == 0 then [] else [Property(ps[0].key, Erase(ps[0].value))] + EraseProperties(ps[1..])
  }

  /** Inference only fills in types: the annotated tree has the shape of the input. */
  lemma {:induction false} InferKeepsShape(scope: Scope, e: Expr, assignable: bool)
    requires Infer(scope, e, assignable).Ok?
    ensures Erase(Infer(scope, e, assignable).value) == Erase(e)
    decreases e, 1
  {
    match e
    case Binary(op, l, r, _) =>
      InferKeepsShape(scope, l, assignable);
      InferKeepsShape(scope, r, assignable);
    case Logical(op, l, r, _) =>
      InferKeepsShape(scope, l, assignable);
      InferKeepsShape(scope, r, assignable);
    case Unary(op, a, _) =>
      InferKeepsShape(scope, a, assignable);
    case Conditional(t, c, a, _) =>
      InferKeepsShape(scope, c, assignable);
      InferKeepsShape(scope, a, assignable);
    case Call(callee, args, _) =>
      InferAllKeepsShape(scope, args, assignable);
    case Member(o, p, c, _) =>
      InferKeepsShape(scope, o, assignable);
    case ArrayExpr(es, _) =>
      InferAllKeepsShape(scope, es, assignable);
    case ObjectExpr(ps, _) =>
      InferPropertiesKeepShape(scope, ps, assignable);
    case _ =>
  }

  lemma {:induction false} InferAllKeepsShape(scope: Scope, es: seq<Expr>, assignable: bool)
    requires InferAll(scope, es, assignable).Ok?
    ensures EraseAll(InferAll(scope, es, assignable).value) == EraseAll(es)
    decreases es, 0
  {
    if |es| > 0 {
      InferKeepsShape(scope, es[0], assignable);
      InferAllKeepsShape(scope, es[1..], assignable);
      var r := InferAll(scope, es, assignable).value;
      assert r[1..] == InferAll(scope, es[1..], assignable).value;
    }
  }

  lemma {:induction false} InferPropertiesKeepShape(scope: Scope, ps: seq<Property>, assignable: bool)
    requires InferProperties(scope, ps, assignable).Ok?
    ensures EraseProperties(InferProperties(scope, ps, assignable).value) == EraseProperties(ps)
    decreases ps, 0
  {
    if |ps| > 0 {
      InferKeepsShape(scope, ps[0].value, assignable);
      InferPropertiesKeepShape(scope, ps[1..], assignable);
      var r := InferProperties(scope, ps, assignable).value;
      assert r[1..] == InferProperties(scope, ps[1..], assignable).value;
    }
  }

  /** Running inference again on its own output changes nothing. */
  lemma {:induction false} InferIdempotent(scope: Scope, e: Expr, assignable: bool)
    requires Infer(scope, e, assignable).Ok?
    ensures Infer(scope, Infer(scope, e, assignable).value, assignable) == Infer(scope, e, assignable)
    decreases e, 1
  {
    match e
    case Binary(op, l, r, _) =>
      InferIdempotent(scope, l, assignable);
      InferIdempotent(scope, r, assignable);
    case Logical(op, l, r, _) =>
      InferIdempotent(scope, l, assignable);
      InferIdempotent(scope, r, assignable);
    case Unary(op, a, _) =>
      InferIdempotent(scope, a, assignable);
    case Conditional(t, c, a, _) =>
      InferIdempotent(scope, c, assignable);
      InferIdempotent(scope, a, assignable);
    case Call(callee, args, _) =>
      InferAllIdempotent(scope, args, assignable);
    case Member(o, p, c, _) =>
      InferIdempotent(scope, o, assignable);
    case ArrayExpr(es, _) =>
      InferAllIdempotent(scope, es, assignable);
    case ObjectExpr(ps, _) =>
      InferPropertiesIdempotent(scope, ps, assignable);
    case _ =>
  }

  lemma {:induction false} InferAllIdempotent(scope: Scope, es: seq<Expr>, assignable: bool)
    requires InferAll(scope, es, assignable).Ok?
    ensures InferAll(scope, InferAll(scope, es, assignable).value, assignable) == InferAll(scope, es, assignable)
    decreases es, 0
  {
    if |es| > 0 {
      InferIdempotent(scope, es[0], assignable);
      InferAllIdempotent(scope, es[1..], assignable);
      var r := InferAll(scope, es, assignable).value;
      assert r[0] == Infer(scope, es[0], assignable).value;
      assert r[1..] == InferAll(scope, es[1..], assignable).value;
    }
  }

  lemma {:induction false} InferPropertiesIdempotent(scope: Scope, ps: seq<Property>, assignable: bool)
    requires InferProperties(scope, ps, assignable).Ok?
    ensures InferProperties(scope, InferProperties(scope, ps, assignable).value, assignable) == InferProperties(scope, ps, assignable)
    decreases ps, 0
  {
    if |ps| > 0 {
      InferIdempotent(scope, ps[0].value, assignable);
      InferPropertiesIdempotent(scope, ps[1..], assignable);
      var r := InferProperties(scope, ps, assignable).value;
      assert r[0] == Property(ps[0].key, Infer(scope, ps[0].value, assignable).value);
      assert r[1..] == InferProperties(scope, ps[1..], assignable).value;
    }
  }

  /** Literal typing: boolean, double for numbers, string, and "undefined" for anything else. */
  lemma LiteralTyping(v: Value, slot: Option<string>, scope: Scope, assignable: bool)
    ensures Infer(scope, Literal(v, slot), assignable) == Ok(Literal(v, Some(LiteralType(v))))
    ensures LiteralType(v) == (if v.Bool? then "boolean" else if v.Num? || v.Opaque? then "double" else if v.Str? then "string" else "undefined")
  {
  }

  /**
   * Identifier resolution: ports first (outputs when assignable, inputs
   * otherwise), then the flow's locals, then the globals, then an enum
   * name; any other name throws.
   */
  lemma IdentifierResolution(scope: Scope, name: string, slot: Option<string>, assignable: bool)
    ensures var r := Infer(scope, Identifier(name, slot), assignable);
      var ports := if assignable then scope.component.buildOutputs else scope.component.buildInputs;
      var local := FindNamed(scope.localVariables, VariableName, name);
      var global := FindNamed(scope.project.globalVariables, VariableName, name);
      (name in ports ==> r == Ok(Identifier(name, Some("any")))) &&
      (name !in ports && local.Some? ==> r == Ok(Identifier(name, Some(local.value.varType)))) &&
      (name !in ports && local.None? && global.Some? ==> r == Ok(Identifier(name, Some(global.value.varType)))) &&
      (name !in ports && local.None? && global.None? ==>
        (r.Ok? <==> exists e :: e in scope.project.enums && e.name == name) &&
        (r.Ok? ==> r.value == Identifier(name, Some("enum:" + name))))
  {
    var t := IdentifierType(scope, name, assignable);
    assert Infer(scope, Identifier(name, slot), assignable) == if t.Ok? then Ok(Identifier(name, Some(t.value))) else Err(t.error);
    EnumNameKnown(scope, name);
  }

  /** A name is in the enum table exactly when some enum of the project has it. */
  lemma EnumNameKnown(scope: Scope, name: string)
    ensures name in EnumTable(scope.project) <==> exists e :: e in scope.project.enums && e.name == name
  {
    ByNameKeys(scope.project.enums, EnumName, name);
    if exists e :: e in scope.project.enums && e.name == name {
      var e :| e in scope.project.enums && e.name == name;
      var j :| 0 <= j < |scope.project.enums| && scope.project.enums[j] == e;
      assert EnumName(scope.project.enums[j]) == name;
    }
  }

  /**
   * A conditional types only its branches; it succeeds exactly when both
   * succeed with equal types, and then takes that type. The test is left as
   * it was.
   */
  lemma ConditionalTyping(scope: Scope, test: Expr, c: Expr, a: Expr, slot: Option<string>, assignable: bool)
    ensures var r := Infer(scope, Conditional(test, c, a, slot), assignable);
      var rc, ra := Infer(scope, c, assignable), Infer(scope, a, assignable);
      (r.Ok? <==> rc.Ok? && ra.Ok? && rc.value.valueType == ra.value.valueType) &&
      (r.Ok? ==> r.value == Conditional(test, rc.value, ra.value, rc.value.valueType)) &&
      (rc.Ok? && ra.Ok? && rc.value.valueType != ra.value.valueType ==> r == Err("different types in conditional"))
  {
    ConditionalUnfold(scope, test, c, a, slot, assignable);
  }

  /** The typing of a conditional from the typings of its branches. */
  function ConditionalOf(test: Expr, rc: Result<Expr, string>, ra: Result<Expr, string>): Result<Expr, string>
  {
    if rc.Err? then Err(rc.error)
    else if ra.Err? then Err(ra.error)
    else if rc.value.valueType != ra.value.valueType then Err("different types in conditional")
    else Ok(Conditional(test, rc.value, ra.value, rc.value.valueType))
  }

  lemma ConditionalUnfold(scope: Scope, test: Expr, c: Expr, a: Expr, slot: Option<string>, assignable: bool)
    ensures Infer(scope, Conditional(test, c, a, slot), assignable) ==
      ConditionalOf(test, Infer(scope, c, assignable), Infer(scope, a, assignable))
  {
  }

  /** A call is typed only if its callee is `Identifier.Identifier` naming a built-in of that arity; its type is the built-in's rule on the argument types. */
  lemma CallTyping(scope: Scope, callee: Expr, args: seq<Expr>, slot: Option<string>, assignable: bool)
    ensures var r := Infer(scope, Call(callee, args, slot), assignable);
      (r.Ok? ==> ResolveCall(callee, |args|).Ok? && InferAll(scope, args, assignable).Ok?) &&
      (r.Ok? ==> (r.value.valueType ==
        Some(Operations.FunctionValueType(ResolveCall(callee, |args|).value, Types(InferAll(scope, args, assignable).value))))) &&
      (ResolveCall(callee, |args|).Err? ==> r == Err(ResolveCall(callee, |args|).error))
  {
  }

  /** A BinaryExpression's type follows its operator's rule: the binary table first, then the logical one, where every rule gives "boolean". */
  lemma BinaryTyping(scope: Scope, op: string, l: Expr, r: Expr, slot: Option<string>, assignable: bool)
    requires Infer(scope, Binary(op, l, r, slot), assignable).Ok?
    ensures var t := Infer(scope, Binary(op, l, r, slot), assignable).value;
      var tl, tr := TypeText(Infer(scope, l, assignable).value.valueType), TypeText(Infer(scope, r, assignable).value.valueType);
      BinaryExpressionOperator(op).Some? &&
      match BinaryExpressionOperator(op).value
      case Arithmetic(b) => t.valueType == Some(Operations.BinaryValueType(b, tl, tr))
      case Comparison(_) => t.valueType == Some("boolean")
  {
    var operator := BinaryExpressionOperator(op);
    var l', r' := Infer(scope, l, assignable), Infer(scope, r, assignable);
    assert Infer(scope, Binary(op, l, r, slot), assignable) ==
      Ok(Binary(op, l'.value, r'.value, Some(BinaryNodeType(operator.value, l'.value.valueType, r'.value.valueType))));
  }

  /**
   * Member typing: on an enum-typed object the member must exist and the
   * type is integer; a computed member needs an `array:T` object and has
   * type T; otherwise the object type names a structure (with or without
   * its "struct:" prefix) and the member has its field's type.
   */
  lemma MemberTyping(scope: Scope, objectType: string, property: Expr, computed: bool)
    ensures var r := MemberType(scope, Some(objectType), property, computed);
      (IsEnumType(objectType) ==> ((r.Ok? ==> r.value == "integer") &&
        (r.Ok? <==> (property.Identifier? && GetEnumTypeNameFromType(objectType).value in EnumTable(scope.project) &&
          property.name in ByName(EnumTable(scope.project)[GetEnumTypeNameFromType(objectType).value].members, MemberName))))) &&
      (!IsEnumType(objectType) && computed ==>
        (r.Ok? <==> GetArrayElementTypeFromType(objectType).Some? && GetArrayElementTypeFromType(objectType).value != "") &&
        (r.Ok? ==> r == Ok(GetArrayElementTypeFromType(objectType).value))) &&
      (!IsEnumType(objectType) && !computed && r.Ok? ==>
        property.Identifier? &&
        exists s, f :: s in scope.project.structures && f in s.fields && f.name == property.name && r.value == f.fieldType)
    ensures var r := MemberType(scope, Some(objectType), property, computed);
      var structName := StructNameOf(objectType);
      !IsEnumType(objectType) && !computed ==>
        (r.Ok? <==> (structName in StructTable(scope.project) && property.Identifier? &&
          FindNamed(StructTable(scope.project)[structName].fields, FieldName, property.name).Some?)) &&
        (r.Ok? ==> r.value == FindNamed(StructTable(scope.project)[structName].fields, FieldName, property.name).value.fieldType) &&
        (structName in StructTable(scope.project) ==> (StructTable(scope.project)[structName] in scope.project.structures &&
          StructTable(scope.project)[structName].name == structName))
  {
    ByNameFacts(scope.project.structures, StructureName);
    if !IsEnumType(objectType) && !computed && MemberType(scope, Some(objectType), property, computed).Ok? {
      var structName := StructNameOf(objectType);
      var s := StructTable(scope.project)[structName];
      var f := FindNamed(s.fields, FieldName, property.name).value;
      assert s in scope.project.structures && f in s.fields;
    }
  }

  /**
   * The messages member typing throws: an enum member that is not an
   * identifier or not in its enum, a computed member of a non-array type, a
   * type that names no structure, a field that is not an identifier, and a
   * field the structure lacks.
   */
  lemma MemberTypingErrors(scope: Scope, objectType: string, property: Expr, computed: bool)
    ensures var r := MemberType(scope, Some(objectType), property, computed);
      var enumName := GetEnumTypeNameFromType(objectType);
      var element := GetArrayElementTypeFromType(objectType);
      var structName := StructNameOf(objectType);
      var structs := StructTable(scope.project);
      (IsEnumType(objectType) && !property.Identifier? ==> r == Err("Invalid enum field type: '" + NodeType(property) + "'")) &&
      (IsEnumType(objectType) && property.Identifier? && enumName.value in EnumTable(scope.project) &&
        property.name !in ByName(EnumTable(scope.project)[enumName.value].members, MemberName) ==>
        r == Err("Enum member '" + property.name + "' not found in enum '" + enumName.value + "'")) &&
      (!IsEnumType(objectType) && computed && (element.None? || element.value == "") ==>
        r == Err("Array type expected but found '" + objectType + "'")) &&
      (!IsEnumType(objectType) && !computed && structName !in structs ==>
        r == Err("Struct type expected but found '" + objectType + "'")) &&
      (!IsEnumType(objectType) && !computed && structName in structs && !property.Identifier? ==>
        r == Err("Invalid struct field type: '" + NodeType(property) + "'")) &&
      (!IsEnumType(objectType) && !computed && structName in structs && property.Identifier? &&
        FindNamed(structs[structName].fields, FieldName, property.name).None? ==>
        r == Err("Struc field not found: '" + property.name + "'"))
  {
  }

  /** A member of an object whose type is unset throws, as `undefined.match` does. */
  lemma MemberOfUntyped(scope: Scope, property: Expr, computed: bool)
    ensures MemberType(scope, None, property, computed) == Err(UndefinedRead("match"))
  {
  }
}
