/**
 * The two expression evaluators: `evalConstantExpressionNode`, which folds an
 * expression at build time without any data, and
 * `evalExpressionWithContext`, which evaluates it in the editor against a
 * data context and, for component inputs, a flow state; and their entry
 * points `evalConstantExpression` and `evalExpression`, which turn a throw
 * during evaluation into `null`.
 *
 * A result is a value, or a Failure: a throw with its message, or a
 * computation the model leaves out (a non-integral number, an object
 * coercion). Evaluation has no side effects, so which operands are
 * evaluated only shows in which throws surface.
 */
module Evaluation {
  import opened Wrappers
  import opened JsValues
  import opened Variables
  import opened Expressions
  import opened DataContexts
  import Operations
  import Lowering
  import Checker
  import Instructions

  type Outcome = Result<Value, Failure>

  function Throw(message: string): Outcome
  {
    Err(Thrown(message))
  }

  /** A value the helpers in the operator catalog compute, or "not modelled" where they give None. */
  function Computed(v: Option<Value>): (r: Outcome)
    ensures r.Ok? <==> v.Some?
    ensures r.Err? ==> r.error == NotModelled
  {
    if v.Some? then Ok(v.value) else Err(NotModelled)
  }

  /**
   * A built-in constant as the evaluators return it: as written, the whole
   * `{ value, valueType }` record of `builtInConstants`; corrected, its value.
   */
  function ConstantValue(mode: Mode, constant: (Value, string)): Value
  {
    match mode
    case AsWritten => Obj(map["value" := constant.0, "valueType" := Str(constant.1)])
    case Corrected => constant.0
  }

  /**
   * `Enum.Member` and `a.b` naming a built-in constant, which both
   * evaluators resolve before anything else; None for any other member
   * expression of two identifiers.
   */
  function NamedConstant(project: ProjectVariables, obj: Expr, property: Expr, mode: Mode): Option<Outcome>
    requires obj.Identifier? && property.Identifier?
  {
    if obj.name in EnumTable(project) then
      var members := ByName(EnumTable(project)[obj.name].members, MemberName);
      if property.name !in members then Some(Throw("Member '" + property.name + "' does not exist in enum '" + obj.name + "'"))
      else Some(Ok(Num(members[property.name].value)))
    else
      var constant := Operations.BuiltInConstant(obj.name + "." + property.name);
      if constant.None? then None else Some(Ok(ConstantValue(mode, constant.value)))
  }

  // ---------------------------------------------------------------------------
  // The operator steps both evaluators share, given their operands' outcomes

  function BinaryStep(op: string, left: Outcome, right: Outcome): Outcome
  {
    var operator := BinaryExpressionOperator(op);
    if operator.None? then Throw("Unknown binary operator '" + op + "'")
    else
      var l :- left;
      var r :- right;
      match operator.value
      case Arithmetic(b) => Computed(Operations.BinaryEval(b, l, r))
      case Comparison(c) => Computed(Operations.LogicalEval(c, l, r))
  }

  function LogicalStep(op: string, left: Outcome, right: Outcome): Outcome
  {
    var operator := Operations.LogicalOperator(op);
    if operator.None? then Throw("Unknown logical operator: " + op)
    else
      var l :- left;
      var r :- right;
      Computed(Operations.LogicalEval(operator.value, l, r))
  }

  function UnaryStep(op: string, argument: Outcome): Outcome
  {
    var operator := Operations.UnaryOperator(op);
    if operator.None? then Throw("Unknown unary operator: " + op)
    else
      var a :- argument;
      Computed(Operations.UnaryEval(operator.value, a))
  }

  /** `test ? consequent : alternate`: only the branch the test picks is used. */
  function ConditionalStep(test: Outcome, consequent: Outcome, alternate: Outcome): Outcome
  {
    var t :- test;
    if Truthy(t) then consequent else alternate
  }

  /** A call's resolution; `it` is the value `$it` reads when there is a data context. */
  function CallStep(callee: Expr, argumentCount: nat, arguments: Result<seq<Value>, Failure>, it: Option<Outcome>): Outcome
  {
    var resolved := ResolveCall(callee, argumentCount);
    if resolved.Err? then Throw(resolved.error)
    else
      var args :- arguments;
      if resolved.value == Operations.FlowIt && it.Some? then
        var v :- it.value;
        Computed(Operations.FunctionEval(resolved.value, Some(v), args))
      else Computed(Operations.FunctionEval(resolved.value, None, args))
  }

  // ---------------------------------------------------------------------------
  // Build-time evaluation

  /** `evalConstantExpressionNode`. */
  function EvalConstant(project: ProjectVariables, e: Expr, mode: Mode): Outcome
    decreases e, 1
  {
    match e
    case Literal(v, _) => Ok(v)
    case Identifier(_, _) => Throw("Can not evaulate during build")
    case Binary(op, l, r, slot) => EvalConstantBinary(project, op, l, r, slot, mode)
    case Logical(op, l, r, slot) => EvalConstantLogical(project, op, l, r, slot, mode)
    case Unary(op, a, slot) => EvalConstantUnary(project, op, a, slot, mode)
    case Conditional(t, c, a, slot) => EvalConstantConditional(project, t, c, a, slot, mode)
    case Call(callee, args, _) => CallStep(callee, |args|, EvalConstantAll(project, args, mode), None)
    case Member(obj, property, _, _) =>
      if obj.Identifier? && property.Identifier? then
        var named := NamedConstant(project, obj, property, mode);
        if named.Some? then named.value
        else Throw("Unknown constant '" + obj.name + "." + property.name + "'")
      else Ok(Arr([]))
    case ArrayExpr(elements, _) =>
      var vs :- EvalConstantAll(project, elements, mode);
      Ok(Arr(vs))
    case ObjectExpr(properties, _) =>
      var fields :- EvalConstantFields(project, properties, mode);
      Ok(Obj(fields))
    case Unknown(t, _) => Throw(UnknownNode(t))
  }

  // One function per operator node kind, each evaluating the operands and
  // handing their outcomes to the shared step.

  function EvalConstantBinary(project: ProjectVariables, op: string, l: Expr, r: Expr, slot: Option<string>, mode: Mode): Outcome
    decreases Binary(op, l, r, slot), 0
  {
    BinaryStep(op, EvalConstant(project, l, mode), EvalConstant(project, r, mode))
  }

  function EvalConstantLogical(project: ProjectVariables, op: string, l: Expr, r: Expr, slot: Option<string>, mode: Mode): Outcome
    decreases Logical(op, l, r, slot), 0
  {
    LogicalStep(op, EvalConstant(project, l, mode), EvalConstant(project, r, mode))
  }

  function EvalConstantUnary(project: ProjectVariables, op: string, a: Expr, slot: Option<string>, mode: Mode): Outcome
    decreases Unary(op, a, slot), 0
  {
    UnaryStep(op, EvalConstant(project, a, mode))
  }

  function EvalConstantConditional(project: ProjectVariables, t: Expr, c: Expr, a: Expr, slot: Option<string>, mode: Mode): Outcome
    decreases Conditional(t, c, a, slot), 0
  {
    ConditionalStep(EvalConstant(project, t, mode), EvalConstant(project, c, mode), EvalConstant(project, a, mode))
  }

  /** `node.arguments.map(evalNode)`: left to right, the first failure ends it. */
  function EvalConstantAll(project: ProjectVariables, es: seq<Expr>, mode: Mode): (r: Result<seq<Value>, Failure>)
    decreases es, 0
    ensures r.Ok? ==> |r.value| == |es|
  {
    if |es| == 0 then Ok([])
    else
      var head :- EvalConstant(project, es[0], mode);
      var tail :- EvalConstantAll(project, es[1..], mode);
      Ok([head] + tail)
  }

  /** `object[property.key.name] = evalNode(property.value)` in order: a later key overwrites an earlier one. */
  function EvalConstantFields(project: ProjectVariables, ps: seq<Expressions.Property>, mode: Mode): Result<map<string, Value>, Failure>
    decreases ps, 0
  {
    if |ps| == 0 then Ok(map[])
    else
      var head :- EvalConstant(project, ps[0].value, mode);
      var tail :- EvalConstantFields(project, ps[1..], mode);
      Ok(map[ps[0].key := head] + tail)
  }

  // ---------------------------------------------------------------------------
  // Evaluation in a data context

  /**
   * What `evalExpressionWithContext` reads: the data context's scopes and
   * globals, the flow state's input values (None when there is no flow
   * state), the component's inputs and the project's variables.
   */
  datatype Context = Context(
    frames: seq<Frame>,
    globals: seq<Variable>,
    flowState: Option<string -> Option<Value>>,
    component: Component,
    project: ProjectVariables)

  predicate HasDataContext(ctx: Context)
  {
    |ctx.frames| >= 1
  }

  /** An identifier: a component input is read from the flow state, anything else from the data context. */
  function ReadIdentifier(ctx: Context, name: string): Outcome
    requires HasDataContext(ctx)
  {
    if name in ctx.component.inputs then
      if ctx.flowState.None? then Throw("cannot get input \"" + name + "\" value without flow state")
      else Ok(ctx.flowState.value(name).GetOr(Undefined))
    else GetIn(ctx.frames, ctx.globals, name)
  }

  /** The key `object[property]` uses: a number indexes, any other primitive is converted to its text. */
  function KeyOf(property: Value): Result<Key, Failure>
  {
    if property.Num? then Ok(NumKey(property.n))
    else
      var text := TemplateText(property);
      if text.None? then Err(NotModelled) else Ok(StrKey(text.value))
  }

  /** `object[property]` once the receiver is known not to be nullish. */
  function PropertyStep(receiver: Value, property: Outcome): Outcome
  {
    var p :- property;
    if IsNullish(p) then Ok(Undefined)
    else
      var key :- KeyOf(p);
      Computed(JsValues.Property(receiver, key))
  }

  /**
   * A member expression in a data context: a named constant first, then
   * `object[property]`, undefined when either is nullish. The property's
   * outcome is used only for a computed access.
   */
  function MemberStep(project: ProjectVariables, obj: Expr, property: Expr, computed: bool, receiver: Outcome, propertyValue: Outcome, mode: Mode): Outcome
  {
    var named := if obj.Identifier? && property.Identifier? then NamedConstant(project, obj, property, mode) else None;
    if named.Some? then named.value
    else
      var o :- receiver;
      if IsNullish(o) then Ok(Undefined)
      else if computed then PropertyStep(o, propertyValue)
      else PropertyStep(o, Ok(if property.Identifier? then Str(property.name) else Undefined))
  }

  /** `evalExpressionWithContext`. */
  function EvalIn(ctx: Context, e: Expr, mode: Mode): Outcome
    requires HasDataContext(ctx)
    decreases e, 1
  {
    match e
    case Literal(v, _) => Ok(v)
    case Identifier(name, _) => ReadIdentifier(ctx, name)
    case Binary(op, l, r, slot) => EvalInBinary(ctx, op, l, r, slot, mode)
    case Logical(op, l, r, slot) => EvalInLogical(ctx, op, l, r, slot, mode)
    case Unary(op, a, slot) => EvalInUnary(ctx, op, a, slot, mode)
    case Conditional(t, c, a, slot) => EvalInConditional(ctx, t, c, a, slot, mode)
    case Call(callee, args, slot) => EvalInCall(ctx, callee, args, slot, mode)
    case Member(obj, property, computed, slot) => EvalInMember(ctx, obj, property, computed, slot, mode)
    case ArrayExpr(_, _) => Ok(Undefined)
    case ObjectExpr(_, _) => Ok(Undefined)
    case Unknown(t, _) => Throw(UnknownNode(t))
  }

  function EvalInBinary(ctx: Context, op: string, l: Expr, r: Expr, slot: Option<string>, mode: Mode): Outcome
    requires HasDataContext(ctx)
    decreases Binary(op, l, r, slot), 0
  {
    BinaryStep(op, EvalIn(ctx, l, mode), EvalIn(ctx, r, mode))
  }

  function EvalInLogical(ctx: Context, op: string, l: Expr, r: Expr, slot: Option<string>, mode: Mode): Outcome
    requires HasDataContext(ctx)
    decreases Logical(op, l, r, slot), 0
  {
    LogicalStep(op, EvalIn(ctx, l, mode), EvalIn(ctx, r, mode))
  }

  function EvalInUnary(ctx: Context, op: string, a: Expr, slot: Option<string>, mode: Mode): Outcome
    requires HasDataContext(ctx)
    decreases Unary(op, a, slot), 0
  {
    UnaryStep(op, EvalIn(ctx, a, mode))
  }

  function EvalInConditional(ctx: Context, t: Expr, c: Expr, a: Expr, slot: Option<string>, mode: Mode): Outcome
    requires HasDataContext(ctx)
    decreases Conditional(t, c, a, slot), 0
  {
    ConditionalStep(EvalIn(ctx, t, mode), EvalIn(ctx, c, mode), EvalIn(ctx, a, mode))
  }

  /** `$it` is read from the data context for `Flow.it`. */
  function EvalInCall(ctx: Context, callee: Expr, args: seq<Expr>, slot: Option<string>, mode: Mode): Outcome
    requires HasDataContext(ctx)
    decreases Call(callee, args, slot), 0
  {
    CallStep(callee, |args|, EvalInAll(ctx, args, mode), Some(GetIn(ctx.frames, ctx.globals, "$it")))
  }

  function EvalInMember(ctx: Context, obj: Expr, property: Expr, computed: bool, slot: Option<string>, mode: Mode): Outcome
    requires HasDataContext(ctx)
    decreases Member(obj, property, computed, slot), 0
  {
    MemberStep(ctx.project, obj, property, computed, EvalIn(ctx, obj, mode), EvalIn(ctx, property, mode), mode)
  }

  function EvalInAll(ctx: Context, es: seq<Expr>, mode: Mode): (r: Result<seq<Value>, Failure>)
    requires HasDataContext(ctx)
    decreases es, 0
    ensures r.Ok? ==> |r.value| == |es|
  {
    if |es| == 0 then Ok([])
    else
      var head :- EvalIn(ctx, es[0], mode);
      var tail :- EvalInAll(ctx, es[1..], mode);
      Ok([head] + tail)
  }

  // ---------------------------------------------------------------------------
  // Entry points

  /** A throw during evaluation is logged and the value becomes null; a parse error propagates. */
  function Caught(r: Outcome): (c: Outcome)
    ensures c.Err? ==> c.error == NotModelled
  {
    if r.Err? && r.error.Thrown? then Ok(Null) else r
  }

  /** `evalConstantExpression`. */
  function EvalConstantExpression(project: ProjectVariables, source: Source, parse: string -> Result<Expr, string>, mode: Mode): Outcome
  {
    match source
    case Missing => Ok(Undefined)
    case NumberSource(n) => Ok(n)
    case Text(text) =>
      var root := Parse(parse, text);
      if root.Err? then Throw(root.error)
      else Caught(EvalConstant(project, root.value, mode))
  }

  /** `evalExpression`: inference runs first, and its throws are caught the same way. */
  function EvalExpression(ctx: Context, scope: Scope, source: Source, parse: string -> Result<Expr, string>, mode: Mode): Outcome
    requires HasDataContext(ctx)
  {
    match source
    case Missing => Ok(Undefined)
    case NumberSource(n) => Ok(n)
    case Text(text) =>
      var root := Parse(parse, text);
      if root.Err? then Throw(root.error)
      else
        var annotated := Infer(scope, root.value, false);
        if annotated.Err? then Ok(Null)
        else Caught(EvalIn(ctx, annotated.value, mode))
  }

  // ---------------------------------------------------------------------------
  // Properties

  /** The branch the test does not pick has no influence, not even through its throws. */
  lemma ConditionalPicksBranch(ctx: Context, t: Expr, c: Expr, a: Expr, other: Expr, slot: Option<string>, mode: Mode)
    requires HasDataContext(ctx)
    ensures EvalIn(ctx, t, mode).Err? ==> EvalIn(ctx, Conditional(t, c, a, slot), mode) == EvalIn(ctx, t, mode)
    ensures var test := EvalIn(ctx, t, mode);
      test.Ok? && Truthy(test.value) ==>
        EvalIn(ctx, Conditional(t, c, a, slot), mode) == EvalIn(ctx, Conditional(t, c, other, slot), mode) == EvalIn(ctx, c, mode)
    ensures var test := EvalIn(ctx, t, mode);
      test.Ok? && !Truthy(test.value) ==>
        EvalIn(ctx, Conditional(t, c, a, slot), mode) == EvalIn(ctx, Conditional(t, other, a, slot), mode) == EvalIn(ctx, a, mode)
  {
    ConditionalUnfolds(ctx, t, c, a, slot, mode);
    ConditionalUnfolds(ctx, t, c, other, slot, mode);
    ConditionalUnfolds(ctx, t, other, a, slot, mode);
    StepPicksBranch(EvalIn(ctx, t, mode), EvalIn(ctx, c, mode), EvalIn(ctx, a, mode), EvalIn(ctx, other, mode));
  }

  lemma ConditionalUnfolds(ctx: Context, t: Expr, c: Expr, a: Expr, slot: Option<string>, mode: Mode)
    requires HasDataContext(ctx)
    ensures EvalIn(ctx, Conditional(t, c, a, slot), mode) == ConditionalStep(EvalIn(ctx, t, mode), EvalIn(ctx, c, mode), EvalIn(ctx, a, mode))
  {
    assert EvalIn(ctx, Conditional(t, c, a, slot), mode) == EvalInConditional(ctx, t, c, a, slot, mode);
  }

  /** The same at build time. */
  lemma ConstantConditionalPicksBranch(project: ProjectVariables, t: Expr, c: Expr, a: Expr, other: Expr, slot: Option<string>, mode: Mode)
    ensures EvalConstant(project, t, mode).Err? ==> EvalConstant(project, Conditional(t, c, a, slot), mode) == EvalConstant(project, t, mode)
    ensures var test := EvalConstant(project, t, mode);
      test.Ok? && Truthy(test.value) ==>
        EvalConstant(project, Conditional(t, c, a, slot), mode) == EvalConstant(project, Conditional(t, c, other, slot), mode) == EvalConstant(project, c, mode)
    ensures var test := EvalConstant(project, t, mode);
      test.Ok? && !Truthy(test.value) ==>
        EvalConstant(project, Conditional(t, c, a, slot), mode) == EvalConstant(project, Conditional(t, other, a, slot), mode) == EvalConstant(project, a, mode)
  {
    var test, vc, va, vo := EvalConstant(project, t, mode), EvalConstant(project, c, mode), EvalConstant(project, a, mode), EvalConstant(project, other, mode);
    assert EvalConstant(project, Conditional(t, c, a, slot), mode) == ConditionalStep(test, vc, va);
    assert EvalConstant(project, Conditional(t, c, other, slot), mode) == ConditionalStep(test, vc, vo);
    assert EvalConstant(project, Conditional(t, other, a, slot), mode) == ConditionalStep(test, vo, va);
    StepPicksBranch(test, vc, va, vo);
  }

  lemma StepPicksBranch(test: Outcome, vc: Outcome, va: Outcome, vo: Outcome)
    ensures test.Err? ==> ConditionalStep(test, vc, va) == test
    ensures test.Ok? && Truthy(test.value) ==> ConditionalStep(test, vc, va) == ConditionalStep(test, vc, vo) == vc
    ensures test.Ok? && !Truthy(test.value) ==> ConditionalStep(test, vc, va) == ConditionalStep(test, vo, va) == va
  {
  }

  /**
   * Both operands of a logical node are evaluated, left first, before the
   * operator applies: `&&` and `||` do not short-circuit, so a throw in the
   * right operand surfaces whatever the left one is.
   */
  lemma OperandsEvaluatedEagerly(ctx: Context, op: string, l: Expr, r: Expr, slot: Option<string>, mode: Mode)
    requires HasDataContext(ctx)
    requires Operations.LogicalOperator(op).Some?
    ensures EvalIn(ctx, l, mode).Err? ==> EvalIn(ctx, Logical(op, l, r, slot), mode) == EvalIn(ctx, l, mode)
    ensures EvalIn(ctx, l, mode).Ok? && EvalIn(ctx, r, mode).Err? ==> EvalIn(ctx, Logical(op, l, r, slot), mode) == EvalIn(ctx, r, mode)
    ensures EvalIn(ctx, l, mode).Ok? && EvalIn(ctx, r, mode).Ok? ==>
      EvalIn(ctx, Logical(op, l, r, slot), mode) ==
        Computed(Operations.LogicalEval(Operations.LogicalOperator(op).value, EvalIn(ctx, l, mode).value, EvalIn(ctx, r, mode).value))
  {
    assert EvalIn(ctx, Logical(op, l, r, slot), mode) == LogicalStep(op, EvalIn(ctx, l, mode), EvalIn(ctx, r, mode));
  }

  /** A throw in the left operand of a binary node wins over anything in the right one. */
  lemma LeftOperandFirst(ctx: Context, project: ProjectVariables, op: string, l: Expr, r: Expr, slot: Option<string>, mode: Mode)
    requires HasDataContext(ctx)
    requires BinaryExpressionOperator(op).Some?
    ensures EvalIn(ctx, l, mode).Err? ==> EvalIn(ctx, Binary(op, l, r, slot), mode) == EvalIn(ctx, l, mode)
    ensures EvalConstant(project, l, mode).Err? ==> EvalConstant(project, Binary(op, l, r, slot), mode) == EvalConstant(project, l, mode)
    ensures EvalIn(ctx, l, mode).Ok? && EvalIn(ctx, r, mode).Err? ==> EvalIn(ctx, Binary(op, l, r, slot), mode) == EvalIn(ctx, r, mode)
  {
    assert EvalIn(ctx, Binary(op, l, r, slot), mode) == BinaryStep(op, EvalIn(ctx, l, mode), EvalIn(ctx, r, mode));
    assert EvalConstant(project, Binary(op, l, r, slot), mode) == BinaryStep(op, EvalConstant(project, l, mode), EvalConstant(project, r, mode));
  }

  /**
   * Expressions that read no data: no identifiers outside enum members and
   * built-in constants, no `Flow.it` call, no array or object literal.
   */
  predicate Closed(project: ProjectVariables, e: Expr)
  {
    match e
    case Literal(_, _) => true
    case Identifier(_, _) => false
    case Binary(_, l, r, _) => Closed(project, l) && Closed(project, r)
    case Logical(_, l, r, _) => Closed(project, l) && Closed(project, r)
    case Unary(_, a, _) => Closed(project, a)
    case Conditional(t, c, a, _) => Closed(project, t) && Closed(project, c) && Closed(project, a)
    case Call(callee, args, _) =>
      ResolveCall(callee, |args|) != Ok(Operations.FlowIt) && forall i :: 0 <= i < |args| ==> Closed(project, args[i])
    case Member(o, p, _, _) =>
      o.Identifier? && p.Identifier? && (o.name in EnumTable(project) || Operations.BuiltInConstant(o.name + "." + p.name).Some?)
    case ArrayExpr(_, _) => false
    case ObjectExpr(_, _) => false
    case Unknown(_, _) => true
  }

  /** On expressions that read no data, the build-time and the editor evaluator agree, throws included. */
  lemma {:induction false} EvaluatorsAgree(ctx: Context, e: Expr, mode: Mode)
    requires HasDataContext(ctx) && Closed(ctx.project, e)
    ensures EvalConstant(ctx.project, e, mode) == EvalIn(ctx, e, mode)
    decreases e, 1
  {
    match e
    case Binary(_, l, r, _) => EvaluatorsAgree(ctx, l, mode); EvaluatorsAgree(ctx, r, mode);
    case Logical(_, l, r, _) => EvaluatorsAgree(ctx, l, mode); EvaluatorsAgree(ctx, r, mode);
    case Unary(_, a, _) => EvaluatorsAgree(ctx, a, mode);
    case Conditional(t, c, a, _) => EvaluatorsAgree(ctx, t, mode); EvaluatorsAgree(ctx, c, mode); EvaluatorsAgree(ctx, a, mode);
    case Call(callee, args, _) => EvaluatorsAgreeAll(ctx, args, mode);
    case _ =>
  }

  lemma {:induction false} EvaluatorsAgreeAll(ctx: Context, es: seq<Expr>, mode: Mode)
    requires HasDataContext(ctx) && forall i :: 0 <= i < |es| ==> Closed(ctx.project, es[i])
    ensures EvalConstantAll(ctx.project, es, mode) == EvalInAll(ctx, es, mode)
    decreases es, 0
  {
    if |es| > 0 {
      EvaluatorsAgree(ctx, es[0], mode);
      EvaluatorsAgreeAll(ctx, es[1..], mode);
    }
  }

  // ---------------------------------------------------------------------------
  // Constants: evaluation against lowering

  /** The value type lowering records with a named constant's pool entry. */
  function ConstantType(project: ProjectVariables, o: string, p: string): string
  {
    if o in EnumTable(project) then "integer"
    else
      var c := Operations.BuiltInConstant(o + "." + p);
      if c.Some? then c.value.1 else ""
  }

  /**
   * With the corrected reading, both evaluators give an enum member or a
   * built-in constant the very value that lowering puts in the constant
   * pool, and throw the message lowering throws for a missing enum member.
   */
  lemma ConstantFoldingMatchesLowering(assets: Lowering.Assets, scope: Scope, ctx: Context, o: string, p: string,
                                       t1: Option<string>, t2: Option<string>, computed: bool, slot: Option<string>, assignable: bool)
    requires HasDataContext(ctx) && ctx.project == assets.rootProject
    requires Lowering.ConstantMember(assets, Identifier(o, t1), Identifier(p, t2)).Some?
    ensures var e := Member(Identifier(o, t1), Identifier(p, t2), computed, slot);
      var v := EvalConstant(assets.rootProject, e, Corrected);
      EvalIn(ctx, e, Corrected) == v &&
      (v.Ok? <==> Lowering.Build(assets, scope, e, assignable).Ok?) &&
      (v.Ok? ==> (Lowering.Build(assets, scope, e, assignable) ==
        Ok([Instructions.PushConstant(assets.constantIndex(v.value, Some(ConstantType(assets.rootProject, o, p))))]))) &&
      (v.Err? ==> v == Throw(Lowering.Build(assets, scope, e, assignable).error))
  {
    var e := Member(Identifier(o, t1), Identifier(p, t2), computed, slot);
    assert Lowering.Build(assets, scope, e, assignable) ==
      Lowering.MemberCode(assets, scope, Identifier(o, t1), Identifier(p, t2), computed,
        Lowering.Build(assets, scope, Identifier(o, t1), assignable), Lowering.Build(assets, scope, Identifier(p, t2), assignable));
  }

  /**
   * As written, the constant evaluators return `Math.PI`'s whole
   * `{ value, valueType }` record instead of its number. Only the constant
   * evaluation, which does no inference, hands the record to a caller;
   * `MathUndeclaredRejected` shows that the entry points inferring types
   * reject `Math.PI` first.
   */
  lemma ConstantRecordFinding(ctx: Context, t1: Option<string>, t2: Option<string>, computed: bool, slot: Option<string>)
    requires HasDataContext(ctx) && "Math" !in EnumTable(ctx.project)
    ensures var e := Member(Identifier("Math", t1), Identifier("PI", t2), computed, slot);
      var record := Obj(map["value" := Opaque("Math.PI"), "valueType" := Str("double")]);
      EvalConstant(ctx.project, e, AsWritten) == Ok(record) && EvalIn(ctx, e, AsWritten) == Ok(record) &&
      EvalConstant(ctx.project, e, Corrected) == Ok(Opaque("Math.PI")) && EvalIn(ctx, e, Corrected) == Ok(Opaque("Math.PI")) &&
      record != Opaque("Math.PI")
  {
    assert "Math" + "." + "PI" == "Math.PI";
  }

  /**
   * When nothing of the flow or project is named `Math`, inference throws on
   * `Math`, so building a `Math.PI` expression fails and evaluating it as a
   * non-constant expression gives null.
   */
  lemma MathUndeclaredRejected(ctx: Context, assets: Lowering.Assets, scope: Scope, text: string,
    parse: string -> Result<Expr, string>, t1: Option<string>, t2: Option<string>, computed: bool,
    slot: Option<string>, mode: Mode)
    requires HasDataContext(ctx) && text != ""
    requires parse(text) == Ok(Member(Identifier("Math", t1), Identifier("PI", t2), computed, slot))
    requires "Math" !in scope.component.buildInputs
    requires FindNamed(scope.localVariables, VariableName, "Math").None?
    requires FindNamed(scope.project.globalVariables, VariableName, "Math").None?
    requires "Math" !in EnumTable(scope.project)
    ensures Infer(scope, Identifier("Math", t1), false).Err?
    ensures Lowering.BuildExpression(assets, scope, Text(text), parse).Err?
    ensures EvalExpression(ctx, scope, Text(text), parse, mode) == Ok(Null)
  {
    MathUnresolved(scope, t1);
    var e := Member(Identifier("Math", t1), Identifier("PI", t2), computed, slot);
    MemberOfUnresolved(scope, Identifier("Math", t1), Identifier("PI", t2), computed, slot);
    UninferredNotBuilt(assets, scope, text, parse, e);
    UninferredIsNull(ctx, scope, text, parse, e, mode);
  }

  /** An expression that fails inference is not built. */
  lemma UninferredNotBuilt(assets: Lowering.Assets, scope: Scope, text: string, parse: string -> Result<Expr, string>, e: Expr)
    requires text != "" && parse(text) == Ok(e) && Infer(scope, e, false).Err?
    ensures Lowering.BuildExpression(assets, scope, Text(text), parse) == Err(Infer(scope, e, false).error)
  {
  }

  /** An expression that fails inference evaluates to null. */
  lemma UninferredIsNull(ctx: Context, scope: Scope, text: string, parse: string -> Result<Expr, string>, e: Expr, mode: Mode)
    requires HasDataContext(ctx) && parse(text) == Ok(e) && Infer(scope, e, false).Err?
    ensures EvalExpression(ctx, scope, Text(text), parse, mode) == Ok(Null)
  {
  }

  /** A member access whose object fails inference fails inference. */
  lemma MemberOfUnresolved(scope: Scope, obj: Expr, property: Expr, computed: bool, slot: Option<string>)
    requires Infer(scope, obj, false).Err?
    ensures Infer(scope, Member(obj, property, computed, slot), false) == Err(Infer(scope, obj, false).error)
  {
  }

  /** `Math` resolves to nothing when no port, variable or enum has that name. */
  lemma MathUnresolved(scope: Scope, t1: Option<string>)
    requires "Math" !in scope.component.buildInputs
    requires FindNamed(scope.localVariables, VariableName, "Math").None?
    requires FindNamed(scope.project.globalVariables, VariableName, "Math").None?
    requires "Math" !in EnumTable(scope.project)
    ensures Infer(scope, Identifier("Math", t1), false).Err?
  {
    IdentifierResolution(scope, "Math", t1, false);
    EnumNameKnown(scope, "Math");
  }


  // ---------------------------------------------------------------------------
  // Identifiers

  /** A variable just stored is what an identifier of that name evaluates to, unless a component input shadows it. */
  lemma IdentifierReadsStore(ctx: Context, name: string, value: Value, slot: Option<string>, mode: Mode)
    requires HasDataContext(ctx) && WellFormed(ctx.frames)
    requires name != "" && '.' !in name && name !in ctx.component.inputs
    requires SetIn(ctx.frames, ctx.globals, name, value).Ok?
    ensures EvalIn(ctx.(frames := SetIn(ctx.frames, ctx.globals, name, value).value), Identifier(name, slot), mode) == Ok(value)
  {
    SetThenGet(ctx.frames, ctx.globals, name, value);
  }

  /** A component input is read from the flow state whatever the data context holds, and throws without one. */
  lemma InputShadowsVariables(ctx: Context, frames: seq<Frame>, name: string, slot: Option<string>, mode: Mode)
    requires HasDataContext(ctx) && |frames| >= 1 && name in ctx.component.inputs
    ensures ctx.flowState.Some? ==>
      EvalIn(ctx, Identifier(name, slot), mode) == EvalIn(ctx.(frames := frames), Identifier(name, slot), mode) ==
        Ok(ctx.flowState.value(name).GetOr(Undefined))
    ensures ctx.flowState.None? ==>
      EvalIn(ctx, Identifier(name, slot), mode) == Throw("cannot get input \"" + name + "\" value without flow state")
  {
  }

  // ---------------------------------------------------------------------------
  // Entry points

  /**
   * `evalConstantExpression`: undefined and a number are their own values;
   * it throws exactly on a parse error; throws during evaluation become null.
   */
  lemma ConstantEntryPoint(project: ProjectVariables, source: Source, parse: string -> Result<Expr, string>, mode: Mode)
    ensures var r := EvalConstantExpression(project, source, parse, mode);
      (source.Missing? ==> r == Ok(Undefined)) && (source.NumberSource? ==> r == Ok(source.n))
    ensures var r := EvalConstantExpression(project, source, parse, mode);
      (r.Err? && r.error.Thrown?) <==> source.Text? && parse(source.text).Err?
    ensures var r := EvalConstantExpression(project, source, parse, mode);
      source.Text? && parse(source.text).Err? ==> r == Throw("Expression error: " + parse(source.text).error)
    ensures var r := EvalConstantExpression(project, source, parse, mode);
      source.Text? && parse(source.text).Ok? ==>
        var v := EvalConstant(project, parse(source.text).value, mode);
        r == if v.Err? && v.error.Thrown? then Ok(Null) else v
  {
  }

  /**
   * `evalExpression` throws exactly on a parse error; a throw from inference
   * or evaluation becomes null; and since evaluation never reads the types
   * inference writes, the value is that of the parsed tree.
   */
  lemma ContextEntryPoint(ctx: Context, scope: Scope, source: Source, parse: string -> Result<Expr, string>, mode: Mode)
    requires HasDataContext(ctx)
    ensures var r := EvalExpression(ctx, scope, source, parse, mode);
      (source.Missing? ==> r == Ok(Undefined)) && (source.NumberSource? ==> r == Ok(source.n))
    ensures var r := EvalExpression(ctx, scope, source, parse, mode);
      (r.Err? && r.error.Thrown?) <==> source.Text? && parse(source.text).Err?
    ensures var r := EvalExpression(ctx, scope, source, parse, mode);
      source.Text? && parse(source.text).Err? ==> r == Throw("Expression error: " + parse(source.text).error)
    ensures var r := EvalExpression(ctx, scope, source, parse, mode);
      source.Text? && parse(source.text).Ok? ==>
        var root := parse(source.text).value;
        var v := EvalIn(ctx, root, mode);
        r == if Infer(scope, root, false).Err? || (v.Err? && v.error.Thrown?) then Ok(Null) else v
  {
    if source.Text? && parse(source.text).Ok? {
      var root := parse(source.text).value;
      if Infer(scope, root, false).Ok? {
        var annotated := Infer(scope, root, false).value;
        InferKeepsShape(scope, root, false);
        EvalIgnoresTypes(ctx, root, mode);
        EvalIgnoresTypes(ctx, annotated, mode);
      }
    }
  }

  lemma {:induction false} CalleeNameErased(callee: Expr)
    ensures CalleeName(Erase(callee)) == CalleeName(callee)
  {
  }

  /** Evaluation never reads a `valueType` slot. */
  lemma {:induction false} EvalIgnoresTypes(ctx: Context, e: Expr, mode: Mode)
    requires HasDataContext(ctx)
    ensures EvalIn(ctx, Erase(e), mode) == EvalIn(ctx, e, mode)
    decreases e, 1
  {
    match e
    case Literal(_, _) =>
    case Identifier(_, _) =>
    case Binary(op, l, r, _) =>
      EvalIgnoresTypes(ctx, l, mode);
      EvalIgnoresTypes(ctx, r, mode);
    case Logical(op, l, r, _) =>
      EvalIgnoresTypes(ctx, l, mode);
      EvalIgnoresTypes(ctx, r, mode);
    case Unary(op, a, _) =>
      EvalIgnoresTypes(ctx, a, mode);
    case Conditional(t, c, a, slot) =>
      EvalIgnoresTypes(ctx, t, mode);
      EvalIgnoresTypes(ctx, c, mode);
      EvalIgnoresTypes(ctx, a, mode);
      ConditionalUnfolds(ctx, t, c, a, slot, mode);
      ConditionalUnfolds(ctx, Erase(t), Erase(c), Erase(a), None, mode);
    case Call(callee, args, slot) =>
      CallIgnoresTypes(ctx, callee, args, slot, mode);
    case Member(obj, property, computed, slot) =>
      MemberIgnoresTypes(ctx, obj, property, computed, slot, mode);
    case ArrayExpr(_, _) =>
    case ObjectExpr(_, _) =>
    case Unknown(_, _) =>
  }

  lemma CallIgnoresTypes(ctx: Context, callee: Expr, args: seq<Expr>, slot: Option<string>, mode: Mode)
    requires HasDataContext(ctx)
    ensures EvalIn(ctx, Erase(Call(callee, args, slot)), mode) == EvalIn(ctx, Call(callee, args, slot), mode)
    decreases Call(callee, args, slot), 0
  {
    CalleeNameErased(callee);
    Lowering.EraseAllEach(args);
    EvalIgnoresTypesAll(ctx, args, mode);
    assert Erase(Call(callee, args, slot)) == Call(Erase(callee), EraseAll(args), None);
    CallUnfolds(ctx, callee, args, slot, mode);
    CallUnfolds(ctx, Erase(callee), EraseAll(args), None, mode);
    assert ResolveCall(Erase(callee), |args|) == ResolveCall(callee, |args|);
  }

  lemma CallUnfolds(ctx: Context, callee: Expr, args: seq<Expr>, slot: Option<string>, mode: Mode)
    requires HasDataContext(ctx)
    ensures EvalIn(ctx, Call(callee, args, slot), mode) ==
      CallStep(callee, |args|, EvalInAll(ctx, args, mode), Some(GetIn(ctx.frames, ctx.globals, "$it")))
  {
    assert EvalIn(ctx, Call(callee, args, slot), mode) == EvalInCall(ctx, callee, args, slot, mode);
  }

  lemma MemberUnfolds(ctx: Context, obj: Expr, property: Expr, computed: bool, slot: Option<string>, mode: Mode)
    requires HasDataContext(ctx)
    ensures EvalIn(ctx, Member(obj, property, computed, slot), mode) ==
      MemberStep(ctx.project, obj, property, computed, EvalIn(ctx, obj, mode), EvalIn(ctx, property, mode), mode)
  {
    assert EvalIn(ctx, Member(obj, property, computed, slot), mode) == EvalInMember(ctx, obj, property, computed, slot, mode);
  }

  lemma MemberIgnoresTypes(ctx: Context, obj: Expr, property: Expr, computed: bool, slot: Option<string>, mode: Mode)
    requires HasDataContext(ctx)
    ensures EvalIn(ctx, Erase(Member(obj, property, computed, slot)), mode) == EvalIn(ctx, Member(obj, property, computed, slot), mode)
    decreases Member(obj, property, computed, slot), 0
  {
    EvalIgnoresTypes(ctx, obj, mode);
    EvalIgnoresTypes(ctx, property, mode);
    MemberErasedOperands(ctx, obj, property, computed, slot, mode);
  }

  lemma MemberErasedOperands(ctx: Context, obj: Expr, property: Expr, computed: bool, slot: Option<string>, mode: Mode)
    requires HasDataContext(ctx)
    requires EvalIn(ctx, Erase(obj), mode) == EvalIn(ctx, obj, mode) && EvalIn(ctx, Erase(property), mode) == EvalIn(ctx, property, mode)
    ensures EvalIn(ctx, Erase(Member(obj, property, computed, slot)), mode) == EvalIn(ctx, Member(obj, property, computed, slot), mode)
  {
    var o, p := EvalIn(ctx, obj, mode), EvalIn(ctx, property, mode);
    MemberUnfolds(ctx, obj, property, computed, slot, mode);
    MemberUnfolds(ctx, Erase(obj), Erase(property), computed, None, mode);
    MemberStepErased(ctx.project, obj, property, computed, o, p, mode);
  }

  lemma MemberStepErased(project: ProjectVariables, obj: Expr, property: Expr, computed: bool, o: Outcome, p: Outcome, mode: Mode)
    ensures MemberStep(project, Erase(obj), Erase(property), computed, o, p, mode) == MemberStep(project, obj, property, computed, o, p, mode)
  {
    assert Erase(obj).Identifier? == obj.Identifier? && Erase(property).Identifier? == property.Identifier?;
    assert obj.Identifier? ==> Erase(obj).name == obj.name;
    assert property.Identifier? ==> Erase(property).name == property.name;
  }

  lemma {:induction false} EvalIgnoresTypesAll(ctx: Context, es: seq<Expr>, mode: Mode)
    requires HasDataContext(ctx)
    ensures EvalInAll(ctx, EraseAll(es), mode) == EvalInAll(ctx, es, mode)
    decreases es, 0
  {
    if |es| > 0 {
      EvalIgnoresTypes(ctx, es[0], mode);
      EvalIgnoresTypesAll(ctx, es[1..], mode);
      assert EraseAll(es)[0] == Erase(es[0]) && EraseAll(es)[1..] == EraseAll(es[1..]);
    }
  }
}
