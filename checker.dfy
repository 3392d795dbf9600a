/**
 * `checkExpressionNode`, the semantic check that runs after type
 * inference, and `checkExpression`, which parses, infers and checks.
 *
 * As written, the branches for binary, logical, unary, conditional and call
 * nodes check their operands and then fall through to the final throw of an
 * unknown node kind; `Mode` selects that reading or the intended one, in
 * which such a node passes once its operands do.
 */
module Checker {
  import opened Wrappers
  import opened Variables
  import opened Expressions
  import Operations

  /** What the identifier rule accepts: a component input, a flow local or a global. */
  predicate Declared(scope: Scope, name: string)
  {
    name in scope.component.inputs ||
    FindIndex(scope.localVariables, VariableName, name).Some? ||
    FindIndex(scope.project.globalVariables, VariableName, name).Some?
  }

  /** The outcome of an operator node whose operands passed. */
  function Finish(mode: Mode, e: Expr): Result<(), string>
  {
    if mode == AsWritten then Err(UnknownNode(NodeType(e))) else Ok(())
  }

  /** `Enum.Member` must name a member; any other `a.b` of two identifiers a built-in constant. */
  function CheckMember(scope: Scope, obj: Expr, property: Expr): Result<(), string>
  {
    if obj.Identifier? && property.Identifier? then
      if obj.name in EnumTable(scope.project) then
        if property.name in ByName(EnumTable(scope.project)[obj.name].members, MemberName) then Ok(())
        else Err("Member '" + property.name + "' does not exist in enum '" + obj.name + "'")
      else if Operations.BuiltInConstant(obj.name + "." + property.name).Some? then Ok(())
      else Err("Unknown constant '" + obj.name + "." + property.name + "'")
    else Ok(())
  }

  function Check(scope: Scope, e: Expr, mode: Mode): Result<(), string>
    decreases e, 1
  {
    match e
    case Literal(_, _) => Ok(())
    case Identifier(name, _) =>
      if Declared(scope, name) then Ok(())
      else Err("identifier '" + name + "' is neither input or local or global variable")
    case Binary(op, l, r, _) =>
      if BinaryExpressionOperator(op).None? then Err("Unknown binary operator '" + op + "'")
      else
        var left :- Check(scope, l, mode);
        var right :- Check(scope, r, mode);
        Finish(mode, e)
    case Logical(op, l, r, _) =>
      if Operations.LogicalOperator(op).None? then Err("Unknown logical operator '" + op + "'")
      else
        var left :- Check(scope, l, mode);
        var right :- Check(scope, r, mode);
        Finish(mode, e)
    case Unary(op, a, _) =>
      if Operations.UnaryOperator(op).None? then Err("Unknown unary operator '" + op + "'")
      else
        var argument :- Check(scope, a, mode);
        Finish(mode, e)
    case Conditional(t, c, a, _) =>
      var test :- Check(scope, t, mode);
      var consequent :- Check(scope, c, mode);
      var alternate :- Check(scope, a, mode);
      Finish(mode, e)
    case Call(callee, args, _) =>
      var f :- ResolveCall(callee, |args|);
      var arguments :- CheckAll(scope, args, mode);
      Finish(mode, e)
    case Member(obj, property, _, _) => CheckMember(scope, obj, property)
    case ArrayExpr(_, _) => Ok(())
    case ObjectExpr(_, _) => Ok(())
    case Unknown(t, _) => Err(UnknownNode(t))
  }

  /** `node.arguments.forEach(checkNode)`: left to right, the first throw ends it. */
  function CheckAll(scope: Scope, es: seq<Expr>, mode: Mode): Result<(), string>
    decreases es, 0
  {
    if |es| == 0 then Ok(())
    else
      var head :- Check(scope, es[0], mode);
      CheckAll(scope, es[1..], mode)
  }

  /** `checkExpression`: nothing to check for undefined or a number; otherwise parse, infer, check. */
  function CheckExpression(scope: Scope, source: Source, parse: string -> Result<Expr, string>, assignable: bool, mode: Mode): (r: Result<(), string>)
    ensures source.Missing? || source.NumberSource? ==> r == Ok(())
    ensures source.Text? ==> (r.Ok? <==> (Parse(parse, source.text).Ok? && Infer(scope, Parse(parse, source.text).value, assignable).Ok? &&
      Check(scope, Infer(scope, Parse(parse, source.text).value, assignable).value, mode).Ok?))
  {
    match source
    case Missing => Ok(())
    case NumberSource(_) => Ok(())
    case Text(text) =>
      var root :- Parse(parse, text);
      var annotated :- Infer(scope, root, assignable);
      Check(scope, annotated, mode)
  }

  // ---------------------------------------------------------------------------
  // Properties

  predicate IsOperatorNode(e: Expr)
  {
    e.Binary? || e.Logical? || e.Unary? || e.Conditional? || e.Call?
  }

  /** The messages an operator node throws when control falls through to the end of the check. */
  function FallThroughMessages(): set<string>
  {
    {UnknownNode("BinaryExpression"), UnknownNode("LogicalExpression"), UnknownNode("UnaryExpression"),
     UnknownNode("ConditionalExpression"), UnknownNode("CallExpression")}
  }

  /**
   * As written, the check throws on every operator node; where the intended
   * check accepts the node, the throw is the fall-through to the
   * unknown-node message.
   */
  lemma {:induction false} AsWrittenRejectsOperators(scope: Scope, e: Expr)
    requires IsOperatorNode(e)
    ensures Check(scope, e, AsWritten).Err?
    ensures Check(scope, e, Corrected).Ok? ==> Check(scope, e, AsWritten).error in FallThroughMessages()
    decreases e, 1
  {
    if Check(scope, e, Corrected).Ok? {
      match e
      case Binary(_, l, r, _) =>
        ChildFallsThrough(scope, l);
        ChildFallsThrough(scope, r);
      case Logical(_, l, r, _) =>
        ChildFallsThrough(scope, l);
        ChildFallsThrough(scope, r);
      case Unary(_, a, _) =>
        ChildFallsThrough(scope, a);
      case Conditional(t, c, a, _) =>
        ChildFallsThrough(scope, t);
        ChildFallsThrough(scope, c);
        ChildFallsThrough(scope, a);
      case Call(_, args, _) =>
        CheckAllFallsThrough(scope, args);
    }
  }

  /** A node the intended check accepts passes the written one, or fails it only by falling through. */
  lemma {:induction false} ChildFallsThrough(scope: Scope, d: Expr)
    requires Check(scope, d, Corrected).Ok?
    ensures Check(scope, d, AsWritten).Ok? || Check(scope, d, AsWritten).error in FallThroughMessages()
    decreases d, 2
  {
    if IsOperatorNode(d) {
      AsWrittenRejectsOperators(scope, d);
    }
  }

  lemma {:induction false} CheckAllFallsThrough(scope: Scope, es: seq<Expr>)
    requires CheckAll(scope, es, Corrected).Ok?
    ensures CheckAll(scope, es, AsWritten).Ok? || CheckAll(scope, es, AsWritten).error in FallThroughMessages()
    decreases es, 0
  {
    if |es| > 0 {
      ChildFallsThrough(scope, es[0]);
      CheckAllFallsThrough(scope, es[1..]);
    }
  }

  /** Off the operator nodes the two readings agree. */
  lemma ModesAgreeOffOperators(scope: Scope, e: Expr)
    requires !IsOperatorNode(e)
    ensures Check(scope, e, AsWritten) == Check(scope, e, Corrected)
  {
  }

  /** A list passes exactly when each of its nodes does. */
  lemma {:induction false} CheckAllEach(scope: Scope, es: seq<Expr>, mode: Mode)
    ensures CheckAll(scope, es, mode).Ok? <==> forall i :: 0 <= i < |es| ==> Check(scope, es[i], mode).Ok?
  {
    if |es| > 0 {
      CheckAllEach(scope, es[1..], mode);
      assert forall i :: 0 < i < |es| ==> es[1..][i - 1] == es[i];
    }
  }

  /**
   * The intended check accepts an operator node exactly when its operator
   * is registered (a call: its callee resolves to a built-in of that arity)
   * and every checked operand passes.
   */
  lemma CorrectedOperatorCheck(scope: Scope, e: Expr)
    ensures e.Binary? ==> (Check(scope, e, Corrected).Ok? <==>
      BinaryExpressionOperator(e.operator).Some? && Check(scope, e.left, Corrected).Ok? && Check(scope, e.right, Corrected).Ok?)
    ensures e.Logical? ==> (Check(scope, e, Corrected).Ok? <==>
      Operations.LogicalOperator(e.operator).Some? && Check(scope, e.left, Corrected).Ok? && Check(scope, e.right, Corrected).Ok?)
    ensures e.Unary? ==> (Check(scope, e, Corrected).Ok? <==>
      Operations.UnaryOperator(e.operator).Some? && Check(scope, e.argument, Corrected).Ok?)
    ensures e.Conditional? ==> (Check(scope, e, Corrected).Ok? <==>
      Check(scope, e.test, Corrected).Ok? && Check(scope, e.consequent, Corrected).Ok? && Check(scope, e.alternate, Corrected).Ok?)
    ensures e.Call? ==> (Check(scope, e, Corrected).Ok? <==>
      ResolveCall(e.callee, |e.arguments|).Ok? && forall i :: 0 <= i < |e.arguments| ==> Check(scope, e.arguments[i], Corrected).Ok?)
  {
    if e.Call? {
      CheckAllEach(scope, e.arguments, Corrected);
    }
  }

  /** An identifier passes exactly when it names a component input, a flow local or a global variable. */
  lemma IdentifierCheck(scope: Scope, name: string, slot: Option<string>, mode: Mode)
    ensures Check(scope, Identifier(name, slot), mode).Ok? <==>
      name in scope.component.inputs ||
      (exists v :: v in scope.localVariables && v.name == name) ||
      (exists v :: v in scope.project.globalVariables && v.name == name)
  {
    assert Check(scope, Identifier(name, slot), mode).Ok? <==> Declared(scope, name);
    DeclaredNames(scope, name);
  }

  /** A name is declared when it is a component input or the name of a flow local or a global variable. */
  lemma DeclaredNames(scope: Scope, name: string)
    ensures Declared(scope, name) <==>
      name in scope.component.inputs ||
      (exists v :: v in scope.localVariables && v.name == name) ||
      (exists v :: v in scope.project.globalVariables && v.name == name)
  {
    var locals, globals := scope.localVariables, scope.project.globalVariables;
    if exists v :: v in locals && v.name == name {
      var v :| v in locals && v.name == name;
      var j :| 0 <= j < |locals| && locals[j] == v;
      assert VariableName(locals[j]) == name;
    }
    if exists v :: v in globals && v.name == name {
      var v :| v in globals && v.name == name;
      var j :| 0 <= j < |globals| && globals[j] == v;
      assert VariableName(globals[j]) == name;
    }
  }

  /**
   * `Enum.Member` passes when the enum has that member; `a.b` naming no enum
   * passes only when "a.b" is a built-in constant. A member access of any
   * other shape passes without its operands being checked.
   */
  lemma MemberCheck(scope: Scope, o: string, p: string, computed: bool, slot: Option<string>, mode: Mode)
    ensures var r := Check(scope, Member(Identifier(o, None), Identifier(p, None), computed, slot), mode);
      var isEnum := o in EnumTable(scope.project);
      (isEnum <==> exists e :: e in scope.project.enums && e.name == o) &&
      (isEnum ==> (r.Ok? <==> exists m :: m in EnumTable(scope.project)[o].members && m.name == p)) &&
      (!isEnum ==> (r.Ok? <==> o + "." + p == "Math.PI"))
  {
    ByNameKeys(scope.project.enums, EnumName, o);
    if exists e :: e in scope.project.enums && e.name == o {
      var e :| e in scope.project.enums && e.name == o;
      var j :| 0 <= j < |scope.project.enums| && scope.project.enums[j] == e;
      assert EnumName(scope.project.enums[j]) == o;
      var members := EnumTable(scope.project)[o].members;
      ByNameKeys(members, MemberName, p);
      if exists m :: m in members && m.name == p {
        var m :| m in members && m.name == p;
        var k :| 0 <= k < |members| && members[k] == m;
        assert MemberName(members[k]) == p;
      }
    }
  }

  /**
   * As written, the check has no case for a structure's field: `s.x` on a
   * declared variable `s` that names no enum is rejected as an unknown
   * constant, whatever the variable's type, unless "s.x" is `Math.PI`.
   */
  lemma StructFieldRejected(scope: Scope, o: string, p: string, t1: Option<string>, t2: Option<string>,
    computed: bool, slot: Option<string>, mode: Mode)
    requires Declared(scope, o) && o !in EnumTable(scope.project) && o + "." + p != "Math.PI"
    ensures Check(scope, Member(Identifier(o, t1), Identifier(p, t2), computed, slot), mode) ==
      Err("Unknown constant '" + o + "." + p + "'")
  {
  }

  lemma MemberOfOtherShapePasses(scope: Scope, obj: Expr, property: Expr, computed: bool, slot: Option<string>, mode: Mode)
    requires !obj.Identifier? || !property.Identifier?
    ensures Check(scope, Member(obj, property, computed, slot), mode) == Ok(())
  {
  }
}
