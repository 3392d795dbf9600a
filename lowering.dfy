/**
 * `buildExpressionNode`, the post-order lowering of an annotated expression
 * tree to VM instructions, and the entry points `buildExpression` and
 * `buildAssignableExpression`, which append END and write the words to the
 * build's data buffer.
 *
 * The asset tables are foreign to this model: the constant pool index and
 * the component input index are functions the caller supplies, and the
 * global variables are the list of names the assets hold.
 */
module Lowering {
  import opened Wrappers
  import opened JsValues
  import opened Variables
  import opened Expressions
  import opened Instructions
  import Operations
  import Sorting
  import Checker
  import Strings

  datatype Assets = Assets(
    constantIndex: (Value, Option<string>) -> int,
    componentInputIndex: string -> int,
    globalVariables: seq<string>,
    rootProject: ProjectVariables)

  /** `makeOperationInstruction(operationIndexes[name])`; a name without an index ORs in `undefined`, that is 0. */
  function OperationInstr(name: string): Instr
  {
    Operation(Operations.OperationIndex(name).GetOr(0))
  }

  function BuildIdentifier(assets: Assets, scope: Scope, name: string, assignable: bool): Result<seq<Instr>, string>
  {
    var output := Operations.IndexOf(scope.component.buildOutputs, name);
    var local := FindIndex(scope.localVariables, VariableName, name);
    var global := Operations.IndexOf(assets.globalVariables, name);
    if assignable && output.Some? then Ok([PushOutput(output.value)])
    else if !assignable && name in scope.component.buildInputs then Ok([PushInput(assets.componentInputIndex(name))])
    else if local.Some? then Ok([PushLocalVar(local.value)])
    else if global.Some? then Ok([PushGlobalVar(global.value)])
    else Err("identifier '" + name + "' is neither input or local or global variable")
  }

  /** The first position at which `name` occurs. */
  ghost predicate FirstAt(names: seq<string>, name: string, k: int)
  {
    0 <= k < |names| && names[k] == name && forall j :: 0 <= j < k ==> names[j] != name
  }

  /**
   * An identifier lowers to one push: of the first output of that name when
   * assigning, of the component input when reading, otherwise of the first
   * flow local, otherwise of the first global variable of that name; it
   * fails only when none of these exists.
   */
  lemma IdentifierLowering(assets: Assets, scope: Scope, name: string, assignable: bool)
    ensures var r := BuildIdentifier(assets, scope, name, assignable);
      var locals := seq(|scope.localVariables|, i requires 0 <= i < |scope.localVariables| => scope.localVariables[i].name);
      var isOutput := assignable && name in scope.component.buildOutputs;
      var isInput := !assignable && name in scope.component.buildInputs;
      (r.Err? <==> !isOutput && !isInput && name !in locals && name !in assets.globalVariables) &&
      (r.Ok? ==> |r.value| == 1) &&
      (isOutput ==> r.Ok? && r.value[0].PushOutput? && FirstAt(scope.component.buildOutputs, name, r.value[0].outputIndex)) &&
      (isInput ==> r == Ok([PushInput(assets.componentInputIndex(name))])) &&
      (!isOutput && !isInput && name in locals ==> r.Ok? && r.value[0].PushLocalVar? && FirstAt(locals, name, r.value[0].localIndex)) &&
      (!isOutput && !isInput && name !in locals && name in assets.globalVariables ==>
        r.Ok? && r.value[0].PushGlobalVar? && FirstAt(assets.globalVariables, name, r.value[0].globalIndex))
  {
    var locals := seq(|scope.localVariables|, i requires 0 <= i < |scope.localVariables| => scope.localVariables[i].name);
    var local := FindIndex(scope.localVariables, VariableName, name);
    if local.Some? {
      assert locals[local.value] == name;
    } else {
      assert forall j :: 0 <= j < |locals| ==> locals[j] == VariableName(scope.localVariables[j]);
    }
  }

  /**
   * `Enum.Member` and a built-in constant `a.b` lower to one constant push;
   * None when `obj.property` is neither and lowers as a member access.
   */
  function ConstantMember(assets: Assets, obj: Expr, property: Expr): Option<Result<seq<Instr>, string>>
  {
    if !(obj.Identifier? && property.Identifier?) then None
    else if obj.name in EnumTable(assets.rootProject) then
      var members := ByName(EnumTable(assets.rootProject)[obj.name].members, MemberName);
      if property.name !in members then Some(Err("Member '" + property.name + "' does not exist in enum '" + obj.name + "'"))
      else Some(Ok([PushConstant(assets.constantIndex(Num(members[property.name].value), Some("integer")))]))
    else
      var constant := Operations.BuiltInConstant(obj.name + "." + property.name);
      if constant.None? then None
      else Some(Ok([PushConstant(assets.constantIndex(constant.value.0, Some(constant.value.1)))]))
  }

  /** The structure a non-computed member access reads, found from the object's type. */
  function StructureOf(scope: Scope, objectType: Option<string>): Result<Structure, string>
  {
    if objectType.None? then Err(UndefinedRead("match"))
    else
      var name := GetStructTypeNameFromType(objectType.value);
      if name.Some? && name.value in StructTable(scope.project) then Ok(StructTable(scope.project)[name.value])
      else Err(UndefinedRead("fields"))
  }

  function FieldNames(fields: seq<StructureField>): (r: seq<string>)
    ensures |r| == |fields| && forall i :: 0 <= i < |fields| ==> r[i] == fields[i].name
  {
    seq(|fields|, i requires 0 <= i < |fields| => fields[i].name)
  }

  /** `fields.map(f => f.name).sort().indexOf(name)`, -1 when absent. */
  function FieldIndex(fields: seq<StructureField>, property: Expr): int
  {
    if !property.Identifier? then -1
    else
      var k := Operations.IndexOf(Sorting.Sort(FieldNames(fields)), property.name);
      if k.Some? then k.value else -1
  }

  function Build(assets: Assets, scope: Scope, e: Expr, assignable: bool): Result<seq<Instr>, string>
    decreases e, 1
  {
    match e
    case Literal(v, _) => Ok([PushConstant(assets.constantIndex(v, None))])
    case Identifier(name, _) => BuildIdentifier(assets, scope, name, assignable)
    case Binary(op, l, r, slot) => BuildBinary(assets, scope, op, l, r, slot, assignable)
    case Logical(op, l, r, slot) => BuildLogical(assets, scope, op, l, r, slot, assignable)
    case Unary(op, a, slot) => BuildUnary(assets, scope, op, a, slot, assignable)
    case Conditional(t, c, a, slot) => BuildConditional(assets, scope, t, c, a, slot, assignable)
    case Call(callee, args, slot) => BuildCall(assets, scope, callee, args, slot, assignable)
    case Member(obj, property, computed, slot) => BuildMember(assets, scope, obj, property, computed, slot, assignable)
    case ArrayExpr(_, _) => Ok([])
    case ObjectExpr(_, _) => Ok([])
    case Unknown(t, _) => Err(UnknownNode(t))
  }

  // One function per node kind that has operands, each lowering its
  // operands and handing their code to the kind's step below.

  function BuildBinary(assets: Assets, scope: Scope, op: string, l: Expr, r: Expr, slot: Option<string>, assignable: bool): Result<seq<Instr>, string>
    decreases Binary(op, l, r, slot), 0
  {
    BinaryCode(op, Build(assets, scope, l, assignable), Build(assets, scope, r, assignable))
  }

  function BuildLogical(assets: Assets, scope: Scope, op: string, l: Expr, r: Expr, slot: Option<string>, assignable: bool): Result<seq<Instr>, string>
    decreases Logical(op, l, r, slot), 0
  {
    LogicalCode(op, Build(assets, scope, l, assignable), Build(assets, scope, r, assignable))
  }

  function BuildUnary(assets: Assets, scope: Scope, op: string, a: Expr, slot: Option<string>, assignable: bool): Result<seq<Instr>, string>
    decreases Unary(op, a, slot), 0
  {
    UnaryCode(op, Build(assets, scope, a, assignable))
  }

  function BuildConditional(assets: Assets, scope: Scope, t: Expr, c: Expr, a: Expr, slot: Option<string>, assignable: bool): Result<seq<Instr>, string>
    decreases Conditional(t, c, a, slot), 0
  {
    ConditionalCode(Build(assets, scope, t, assignable), Build(assets, scope, c, assignable), Build(assets, scope, a, assignable))
  }

  function BuildCall(assets: Assets, scope: Scope, callee: Expr, args: seq<Expr>, slot: Option<string>, assignable: bool): Result<seq<Instr>, string>
    decreases Call(callee, args, slot), 0
  {
    CallCode(callee, |args|, BuildAll(assets, scope, args, assignable))
  }

  function BuildMember(assets: Assets, scope: Scope, obj: Expr, property: Expr, computed: bool, slot: Option<string>, assignable: bool): Result<seq<Instr>, string>
    decreases Member(obj, property, computed, slot), 0
  {
    MemberCode(assets, scope, obj, property, computed, Build(assets, scope, obj, assignable), Build(assets, scope, property, assignable))
  }

  // Each node kind's step, given its operands' code; an operand whose code
  // is not needed is never inspected, so its throws do not surface.

  function BinaryCode(op: string, left: Result<seq<Instr>, string>, right: Result<seq<Instr>, string>): Result<seq<Instr>, string>
  {
    var operator := BinaryExpressionOperator(op);
    if operator.None? then Err("Unknown binary operator '" + op + "'")
    else
      var l :- left;
      var r :- right;
      Ok(l + r + [OperationInstr(BinaryOperatorName(operator.value))])
  }

  function LogicalCode(op: string, left: Result<seq<Instr>, string>, right: Result<seq<Instr>, string>): Result<seq<Instr>, string>
  {
    var operator := Operations.LogicalOperator(op);
    if operator.None? then Err("Unknown logical operator '" + op + "'")
    else
      var l :- left;
      var r :- right;
      Ok(l + r + [OperationInstr(Operations.LogicalName(operator.value))])
  }

  function UnaryCode(op: string, argument: Result<seq<Instr>, string>): Result<seq<Instr>, string>
  {
    var operator := Operations.UnaryOperator(op);
    if operator.None? then Err("Unknown unary operator '" + op + "'")
    else
      var a :- argument;
      Ok(a + [OperationInstr(Operations.UnaryName(operator.value))])
  }

  function ConditionalCode(test: Result<seq<Instr>, string>, consequent: Result<seq<Instr>, string>, alternate: Result<seq<Instr>, string>): Result<seq<Instr>, string>
  {
    var t :- test;
    var c :- consequent;
    var a :- alternate;
    Ok(t + c + a + [OperationInstr(Operations.CONDITIONAL_OPERATOR)])
  }

  function CallCode(callee: Expr, argumentCount: nat, arguments: Result<seq<Instr>, string>): Result<seq<Instr>, string>
  {
    var f :- ResolveCall(callee, argumentCount);
    var code :- arguments;
    Ok(code + [OperationInstr(Operations.FunctionName(f))])
  }

  function MemberCode(assets: Assets, scope: Scope, obj: Expr, property: Expr, computed: bool,
                      objectCode: Result<seq<Instr>, string>, propertyCode: Result<seq<Instr>, string>): Result<seq<Instr>, string>
  {
    var constant := ConstantMember(assets, obj, property);
    if constant.Some? then constant.value
    else if computed then
      var o :- objectCode;
      var p :- propertyCode;
      Ok(o + p + [ArrayElement])
    else
      var structure :- StructureOf(scope, obj.valueType);
      var o :- objectCode;
      Ok(o + [PushConstant(assets.constantIndex(Num(FieldIndex(structure.fields, property)), None)), ArrayElement])
  }

  /** The arguments' code, concatenated left to right; the first throw ends it. */
  function BuildAll(assets: Assets, scope: Scope, es: seq<Expr>, assignable: bool): Result<seq<Instr>, string>
    decreases es, 0
  {
    if |es| == 0 then Ok([])
    else
      var head :- Build(assets, scope, es[0], assignable);
      var tail :- BuildAll(assets, scope, es[1..], assignable);
      Ok(head + tail)
  }

  /** `buildExpression` up to the words: an absent or empty expression pushes the undefined constant. */
  function BuildExpression(assets: Assets, scope: Scope, source: Source, parse: string -> Result<Expr, string>): Result<seq<Instr>, string>
  {
    match source
    case Missing => Ok([PushConstant(assets.constantIndex(Undefined, None)), End])
    case NumberSource(n) => Ok([PushConstant(assets.constantIndex(n, None)), End])
    case Text(text) =>
      if text == "" then Ok([PushConstant(assets.constantIndex(Undefined, None)), End])
      else
        var root :- Parse(parse, text);
        var annotated :- Infer(scope, root, false);
        var code :- Build(assets, scope, annotated, false);
        Ok(code + [End])
  }

  /** `isAssignableExpression`. */
  predicate IsAssignable(e: Expr)
  {
    match e
    case Identifier(_, _) => true
    case Member(_, _, _, _) => true
    case Conditional(_, c, a, _) => IsAssignable(c) && IsAssignable(a)
    case _ => false
  }

  /** `buildAssignableExpression` up to the words. */
  function BuildAssignableExpression(assets: Assets, scope: Scope, text: string, parse: string -> Result<Expr, string>): Result<seq<Instr>, string>
  {
    var root :- Parse(parse, text);
    var annotated :- Infer(scope, root, true);
    if !IsAssignable(annotated) then Err("Expression is not assignable")
    else
      var code :- Build(assets, scope, annotated, true);
      Ok(code + [End])
  }

  // ---------------------------------------------------------------------------
  // Writing the words

  /**
   * The words of a code sequence. As written each word is the type constant
   * OR-ed with the operand; the corrected encoding refuses an operand that
   * does not fit the 13-bit field.
   */
  function WordsOf(code: seq<Instr>, mode: Mode): (r: Result<seq<int>, string>)
    ensures r.Ok? ==> |r.value| == |code| && forall i :: 0 <= i < |code| ==> r.value[i] == MakeWord(code[i])
    ensures mode == AsWritten ==> r.Ok?
    ensures mode == Corrected ==> (r.Ok? <==> forall i :: 0 <= i < |code| ==> 0 <= Operand(code[i]) < 8192)
  {
    if |code| == 0 then Ok([])
    else
      var tail :- WordsOf(code[1..], mode);
      if mode == Corrected && !(0 <= Operand(code[0]) < 8192) then Err("operand " + Strings.IntToString(Operand(code[0])) + " does not fit the instruction word")
      else
        assert forall i :: 1 <= i < |code| ==> code[1..][i - 1] == code[i];
        Ok([MakeWord(code[0])] + tail)
  }

  /** Every word of the corrected encoding is a 16-bit word that decodes to its instruction. */
  lemma CorrectedWordsDecode(code: seq<Instr>)
    requires WordsOf(code, Corrected).Ok?
    ensures forall i :: 0 <= i < |code| ==>
      0 <= WordsOf(code, Corrected).value[i] < 65536 && Decode(WordsOf(code, Corrected).value[i]) == Some(code[i])
  {
    var ws := WordsOf(code, Corrected).value;
    forall i | 0 <= i < |code| ensures 0 <= ws[i] < 65536 && Decode(ws[i]) == Some(code[i]) {
      EncodeRoundTrip(code[i]);
    }
  }

  /**
   * The 16 bits a word keeps in the build's byte buffer: its low 16 bits,
   * so a negative word is kept in two's complement.
   */
  function Low16(w: int): (r: int)
    ensures 0 <= r < 65536
    ensures 0 <= w < 65536 ==> r == w
    ensures (w - r) % 65536 == 0
  {
    w % 65536
  }

  /** The words as the buffer keeps them. */
  function Stored(ws: seq<int>): seq<int>
  {
    seq(|ws|, i requires 0 <= i < |ws| => Low16(ws[i]))
  }

  /** Words that already fit 16 bits are kept unchanged. */
  lemma StoredFitting(ws: seq<int>)
    requires forall i :: 0 <= i < |ws| ==> 0 <= ws[i] < 65536
    ensures Stored(ws) == ws
  {
  }

  /** The build's output buffer, as far as expressions use it. */
  class DataBuffer {
    var words: seq<int>

    constructor()
      ensures words == []
    {
      words := [];
    }

    /** `writeUint16NonAligned`: the word's low 16 bits are appended. */
    method WriteUint16(w: int)
      modifies this
      ensures words == old(words) + [Low16(w)]
    {
      words := words + [w % 65536];
    }

    /** `instructions.forEach(instruction => dataBuffer.writeUint16NonAligned(instruction))`. */
    method WriteAll(ws: seq<int>)
      modifies this
      ensures words == old(words) + Stored(ws)
    {
      var i := 0;
      while i < |ws|
        invariant 0 <= i <= |ws|
        invariant words == old(words) + Stored(ws[..i])
      {
        WriteUint16(ws[i]);
        assert Stored(ws[..i + 1]) == Stored(ws[..i]) + [Low16(ws[i])];
        i := i + 1;
      }
      assert ws[..i] == ws;
    }

    /** `buildExpression`: on a throw nothing is written. */
    method EmitExpression(assets: Assets, scope: Scope, source: Source, parse: string -> Result<Expr, string>, mode: Mode)
      returns (error: Option<string>)
      modifies this
      ensures var code := BuildExpression(assets, scope, source, parse);
        if code.Err? then error == Some(code.error) && words == old(words)
        else if WordsOf(code.value, mode).Err? then error == Some(WordsOf(code.value, mode).error) && words == old(words)
        else error.None? && words == old(words) + Stored(WordsOf(code.value, mode).value)
      ensures var code := BuildExpression(assets, scope, source, parse);
        mode == Corrected && error.None? ==> words == old(words) + WordsOf(code.value, mode).value
    {
      var code := BuildExpression(assets, scope, source, parse);
      if code.Err? {
        return Some(code.error);
      }
      var ws := WordsOf(code.value, mode);
      if ws.Err? {
        return Some(ws.error);
      }
      WriteAll(ws.value);
      if mode == Corrected {
        CorrectedWordsDecode(code.value);
        StoredFitting(ws.value);
      }
      return None;
    }

    /** `buildAssignableExpression`: on a throw nothing is written. */
    method EmitAssignableExpression(assets: Assets, scope: Scope, text: string, parse: string -> Result<Expr, string>, mode: Mode)
      returns (error: Option<string>)
      modifies this
      ensures var code := BuildAssignableExpression(assets, scope, text, parse);
        if code.Err? then error == Some(code.error) && words == old(words)
        else if WordsOf(code.value, mode).Err? then error == Some(WordsOf(code.value, mode).error) && words == old(words)
        else error.None? && words == old(words) + Stored(WordsOf(code.value, mode).value)
      ensures var code := BuildAssignableExpression(assets, scope, text, parse);
        mode == Corrected && error.None? ==> words == old(words) + WordsOf(code.value, mode).value
    {
      var code := BuildAssignableExpression(assets, scope, text, parse);
      if code.Err? {
        return Some(code.error);
      }
      var ws := WordsOf(code.value, mode);
      if ws.Err? {
        return Some(ws.error);
      }
      WriteAll(ws.value);
      if mode == Corrected {
        CorrectedWordsDecode(code.value);
        StoredFitting(ws.value);
      }
      return None;
    }
  }

  // ---------------------------------------------------------------------------
  // Post-order shape

  /** The code of each node of a list, concatenated in order. */
  function Concat(codes: seq<seq<Instr>>): seq<Instr>
  {
    if |codes| == 0 then [] else codes[0] + Concat(codes[1..])
  }

  /** The arguments lower one after the other: the list's code is the concatenation of each argument's code. */
  lemma BuildAllEach(assets: Assets, scope: Scope, es: seq<Expr>, assignable: bool)
    ensures BuildAll(assets, scope, es, assignable).Ok? <==> forall i :: 0 <= i < |es| ==> Build(assets, scope, es[i], assignable).Ok?
    ensures BuildAll(assets, scope, es, assignable).Ok? ==>
      BuildAll(assets, scope, es, assignable).value == Concat(Values(Codes(assets, scope, es, assignable)))
  {
    BuildAllIsCollect(assets, scope, es, assignable);
    var codes := Codes(assets, scope, es, assignable);
    CollectEach(codes);
    forall i | 0 <= i < |es| ensures codes[i] == Build(assets, scope, es[i], assignable) {
      CodesAt(assets, scope, es, assignable, i);
    }
  }

  /** Each argument's lowering, in order. */
  function Codes(assets: Assets, scope: Scope, es: seq<Expr>, assignable: bool): (r: seq<Result<seq<Instr>, string>>)
    ensures |r| == |es|
  {
    seq(|es|, i requires 0 <= i < |es| => Build(assets, scope, es[i], assignable))
  }

  lemma CodesAt(assets: Assets, scope: Scope, es: seq<Expr>, assignable: bool, i: nat)
    requires i < |es|
    ensures Codes(assets, scope, es, assignable)[i] == Build(assets, scope, es[i], assignable)
  {
  }

  /** The code each successful result holds. */
  function Values(codes: seq<Result<seq<Instr>, string>>): (r: seq<seq<Instr>>)
    ensures |r| == |codes|
    ensures forall i :: 0 <= i < |codes| && codes[i].Ok? ==> r[i] == codes[i].value
  {
    seq(|codes|, i requires 0 <= i < |codes| => if codes[i].Ok? then codes[i].value else [])
  }

  /** The codes concatenated in order, or the first error among them. */
  function Collect(codes: seq<Result<seq<Instr>, string>>): Result<seq<Instr>, string>
  {
    if |codes| == 0 then Ok([])
    else
      var head :- codes[0];
      var tail :- Collect(codes[1..]);
      Ok(head + tail)
  }

  /** Lowering a list is collecting its elements' lowerings. */
  lemma {:induction false} BuildAllIsCollect(assets: Assets, scope: Scope, es: seq<Expr>, assignable: bool)
    ensures BuildAll(assets, scope, es, assignable) == Collect(Codes(assets, scope, es, assignable))
  {
    if |es| > 0 {
      BuildAllIsCollect(assets, scope, es[1..], assignable);
      var codes, tail := Codes(assets, scope, es, assignable), Codes(assets, scope, es[1..], assignable);
      CodesAt(assets, scope, es, assignable, 0);
      forall k | 0 <= k < |tail| ensures codes[1..][k] == tail[k] {
        CodesAt(assets, scope, es, assignable, k + 1);
        CodesAt(assets, scope, es[1..], assignable, k);
      }
      assert codes[1..] == tail;
    }
  }

  /** Collecting succeeds exactly when every code does, and then concatenates them. */
  lemma {:induction false} CollectEach(codes: seq<Result<seq<Instr>, string>>)
    ensures Collect(codes).Ok? <==> forall i :: 0 <= i < |codes| ==> codes[i].Ok?
    ensures Collect(codes).Ok? ==> Collect(codes).value == Concat(Values(codes))
  {
    if |codes| > 0 {
      CollectEach(codes[1..]);
      assert forall i :: 0 < i < |codes| ==> codes[1..][i - 1] == codes[i];
      if Collect(codes).Ok? {
        assert Values(codes)[1..] == Values(codes[1..]);
      }
    }
  }

  /** The operation index of a BinaryExpression's operator: 0-9 for the binary table, 10-17 for the logical one. */
  function BinaryIndex(operator: BinaryOperatorOf): (k: nat)
    ensures k < 18
  {
    match operator
    case Arithmetic(b) => Operations.BinaryOrdinal(b)
    case Comparison(c) => 10 + Operations.LogicalOrdinal(c)
  }

  lemma BinaryIndexIsOperationIndex(operator: BinaryOperatorOf)
    ensures OperationInstr(BinaryOperatorName(operator)) == Operation(BinaryIndex(operator))
  {
    match operator
    case Arithmetic(b) => Operations.BinaryOperationIndex(b);
    case Comparison(c) => Operations.LogicalOperationIndex(c);
  }

  /** A BinaryExpression lowers to left ++ right ++ [operation]. */
  lemma BinaryLowering(assets: Assets, scope: Scope, op: string, l: Expr, r: Expr, slot: Option<string>, assignable: bool)
    requires Build(assets, scope, Binary(op, l, r, slot), assignable).Ok?
    ensures Build(assets, scope, l, assignable).Ok? && Build(assets, scope, r, assignable).Ok?
    ensures BinaryExpressionOperator(op).Some?
    ensures Build(assets, scope, Binary(op, l, r, slot), assignable).value ==
      Build(assets, scope, l, assignable).value + Build(assets, scope, r, assignable).value +
      [Operation(BinaryIndex(BinaryExpressionOperator(op).value))]
  {
    var code := Build(assets, scope, Binary(op, l, r, slot), assignable);
    assert code == BinaryCode(op, Build(assets, scope, l, assignable), Build(assets, scope, r, assignable));
    BinaryIndexIsOperationIndex(BinaryExpressionOperator(op).value);
  }

  /** A LogicalExpression lowers to left ++ right ++ [operation 10-17]; both operands are always in the code. */
  lemma LogicalLowering(assets: Assets, scope: Scope, op: string, l: Expr, r: Expr, slot: Option<string>, assignable: bool)
    requires Build(assets, scope, Logical(op, l, r, slot), assignable).Ok?
    ensures Build(assets, scope, l, assignable).Ok? && Build(assets, scope, r, assignable).Ok?
    ensures Operations.LogicalOperator(op).Some?
    ensures Build(assets, scope, Logical(op, l, r, slot), assignable).value ==
      Build(assets, scope, l, assignable).value + Build(assets, scope, r, assignable).value +
      [Operation(10 + Operations.LogicalOrdinal(Operations.LogicalOperator(op).value))]
  {
    Operations.LogicalOperationIndex(Operations.LogicalOperator(op).value);
  }

  lemma UnaryLowering(assets: Assets, scope: Scope, op: string, a: Expr, slot: Option<string>, assignable: bool)
    requires Build(assets, scope, Unary(op, a, slot), assignable).Ok?
    ensures Build(assets, scope, a, assignable).Ok? && Operations.UnaryOperator(op).Some?
    ensures Build(assets, scope, Unary(op, a, slot), assignable).value ==
      Build(assets, scope, a, assignable).value + [Operation(18 + Operations.UnaryOrdinal(Operations.UnaryOperator(op).value))]
  {
    Operations.UnaryOperationIndex(Operations.UnaryOperator(op).value);
  }

  /** A conditional lowers to test ++ consequent ++ alternate ++ [operation 22]: the VM picks the branch. */
  lemma ConditionalLowering(assets: Assets, scope: Scope, t: Expr, c: Expr, a: Expr, slot: Option<string>, assignable: bool)
    requires Build(assets, scope, Conditional(t, c, a, slot), assignable).Ok?
    ensures Build(assets, scope, t, assignable).Ok? && Build(assets, scope, c, assignable).Ok? && Build(assets, scope, a, assignable).Ok?
    ensures Build(assets, scope, Conditional(t, c, a, slot), assignable).value ==
      Build(assets, scope, t, assignable).value + Build(assets, scope, c, assignable).value +
      Build(assets, scope, a, assignable).value + [Operation(22)]
  {
    var code := Build(assets, scope, Conditional(t, c, a, slot), assignable);
    assert code == ConditionalCode(Build(assets, scope, t, assignable), Build(assets, scope, c, assignable), Build(assets, scope, a, assignable));
    Operations.UnaryOperationIndex(Operations.UnaryPlus);
    assert OperationInstr(Operations.CONDITIONAL_OPERATOR) == Operation(22);
  }

  /** A call lowers to its arguments left to right, then the function's operation, 23-27. */
  lemma CallLowering(assets: Assets, scope: Scope, callee: Expr, args: seq<Expr>, slot: Option<string>, assignable: bool)
    requires Build(assets, scope, Call(callee, args, slot), assignable).Ok?
    ensures ResolveCall(callee, |args|).Ok?
    ensures |args| == Operations.Arity(ResolveCall(callee, |args|).value)
    ensures forall i :: 0 <= i < |args| ==> Build(assets, scope, args[i], assignable).Ok?
    ensures Build(assets, scope, Call(callee, args, slot), assignable).value ==
      Concat(Values(Codes(assets, scope, args, assignable))) +
      [Operation(23 + Operations.FunctionOrdinal(ResolveCall(callee, |args|).value))]
  {
    BuildAllEach(assets, scope, args, assignable);
    Operations.FunctionOperationIndex(ResolveCall(callee, |args|).value);
  }

  /** `Enum.Member` lowers to one push of the member's value, the last member of that name winning. */
  lemma EnumMemberLowering(assets: Assets, scope: Scope, o: string, p: string, t1: Option<string>, t2: Option<string>,
                           computed: bool, slot: Option<string>, assignable: bool, i: nat)
    requires o in EnumTable(assets.rootProject)
    requires var members := EnumTable(assets.rootProject)[o].members;
      i < |members| && members[i].name == p && forall j :: i < j < |members| ==> members[j].name != p
    ensures Build(assets, scope, Member(Identifier(o, t1), Identifier(p, t2), computed, slot), assignable) ==
      Ok([PushConstant(assets.constantIndex(Num(EnumTable(assets.rootProject)[o].members[i].value), Some("integer")))])
  {
    ByNameLastWins(EnumTable(assets.rootProject)[o].members, MemberName, i);
  }

  /**
   * A structure field access lowers to the object's code, a push of the
   * field's index in the alphabetically sorted field names (the number of
   * names that sort before it, or -1 for a name that is not a field), and
   * ARRAY_ELEMENT.
   */
  lemma StructFieldLowering(assets: Assets, scope: Scope, obj: Expr, f: string, t: Option<string>, slot: Option<string>, assignable: bool)
    requires ConstantMember(assets, obj, Identifier(f, t)).None?
    requires StructureOf(scope, obj.valueType).Ok? && Build(assets, scope, obj, assignable).Ok?
    ensures var names := FieldNames(StructureOf(scope, obj.valueType).value.fields);
      var index := if f in names then Sorting.CountLess(names, f) else -1;
      Build(assets, scope, Member(obj, Identifier(f, t), false, slot), assignable) ==
        Ok(Build(assets, scope, obj, assignable).value + [PushConstant(assets.constantIndex(Num(index), None)), ArrayElement])
  {
    var property := Identifier(f, t);
    var fields := StructureOf(scope, obj.valueType).value.fields;
    assert Build(assets, scope, Member(obj, property, false, slot), assignable) ==
      MemberCode(assets, scope, obj, property, false, Build(assets, scope, obj, assignable), Build(assets, scope, property, assignable));
    Sorting.SortedIndexIsRank(FieldNames(fields), f);
    assert FieldIndex(fields, property) == if f in FieldNames(fields) then Sorting.CountLess(FieldNames(fields), f) else -1;
  }

  // ---------------------------------------------------------------------------
  // Stack discipline

  /**
   * How many values the VM pops for an operation index: two for the binary
   * and logical operators (0-17), one for the unary ones (18-21), three for
   * the conditional (22) and the function's arity for a built-in (23-27).
   */
  function OperationArity(k: int): nat
  {
    if 0 <= k < 18 then 2
    else if 18 <= k < 22 then 1
    else if k == 22 then 3
    else if 23 <= k < 28 then Operations.Arity(Operations.BUILT_IN_FUNCTIONS[k - 23].1)
    else 0
  }

  function Pops(i: Instr): nat
  {
    match i
    case ArrayElement => 2
    case Operation(k) => OperationArity(k)
    case _ => 0
  }

  /**
   * The stack depth after running an expression body `code` from `depth`,
   * every instruction but END leaving one value; None where an instruction
   * would pop an empty stack or where END occurs inside the body.
   */
  function Run(code: seq<Instr>, depth: nat): Option<nat>
  {
    if |code| == 0 then Some(depth)
    else if code[0].End? || Pops(code[0]) > depth then None
    else Run(code[1..], depth - Pops(code[0]) + 1)
  }

  /** A body that runs holds no END. */
  lemma {:induction false} RunHasNoEnd(code: seq<Instr>, depth: nat)
    requires Run(code, depth).Some?
    ensures forall i :: 0 <= i < |code| ==> !code[i].End?
  {
    if |code| > 0 {
      RunHasNoEnd(code[1..], depth - Pops(code[0]) + 1);
      assert forall i :: 1 <= i < |code| ==> code[i] == code[1..][i - 1];
    }
  }

  lemma {:induction false} RunConcat(a: seq<Instr>, b: seq<Instr>, depth: nat)
    ensures Run(a + b, depth) == if Run(a, depth).None? then None else Run(b, Run(a, depth).value)
  {
    if |a| == 0 {
      assert a + b == b;
    } else {
      assert (a + b)[0] == a[0] && (a + b)[1..] == a[1..] + b;
      if !a[0].End? && Pops(a[0]) <= depth {
        RunConcat(a[1..], b, depth - Pops(a[0]) + 1);
      }
    }
  }

  lemma OneInstruction(i: Instr, depth: nat)
    requires !i.End? && Pops(i) <= depth
    ensures Run([i], depth) == Some(depth - Pops(i) + 1)
  {
    assert [i][1..] == [];
  }

  /** Array and object literals, which lower to no code, occur nowhere in the tree. */
  predicate NoCollectionLiterals(e: Expr)
    decreases e, 1
  {
    match e
    case ArrayExpr(_, _) => false
    case ObjectExpr(_, _) => false
    case Binary(_, l, r, _) => NoCollectionLiterals(l) && NoCollectionLiterals(r)
    case Logical(_, l, r, _) => NoCollectionLiterals(l) && NoCollectionLiterals(r)
    case Unary(_, a, _) => NoCollectionLiterals(a)
    case Conditional(t, c, a, _) => NoCollectionLiterals(t) && NoCollectionLiterals(c) && NoCollectionLiterals(a)
    case Call(_, args, _) => NoneHasCollectionLiterals(args)
    case Member(o, p, _, _) => NoCollectionLiterals(o) && NoCollectionLiterals(p)
    case _ => true
  }

  predicate NoneHasCollectionLiterals(es: seq<Expr>)
    decreases es, 0
  {
    |es| == 0 || (NoCollectionLiterals(es[0]) && NoneHasCollectionLiterals(es[1..]))
  }

  /** Code that takes the stack from `depth` to `middle`, followed by `rest`, runs as `rest` does from `middle`. */
  lemma Sequenced(code: seq<Instr>, rest: seq<Instr>, depth: nat, middle: nat)
    requires Run(code, depth) == Some(middle)
    ensures Run(code + rest, depth) == Run(rest, middle)
  {
    RunConcat(code, rest, depth);
  }

  /** Operand code each leaving one value, then an instruction that pops them all and pushes one. */
  lemma OperandsThenOp(operands: seq<seq<Instr>>, op: Instr, depth: nat)
    requires forall i :: 0 <= i < |operands| ==> Run(operands[i], depth + i) == Some(depth + i + 1)
    requires !op.End? && Pops(op) == |operands|
    ensures Run(Concat(operands) + [op], depth) == Some(depth + 1)
  {
    ConcatRun(operands, depth);
    Sequenced(Concat(operands), [op], depth, depth + |operands|);
    OneInstruction(op, depth + |operands|);
  }

  lemma {:induction false} ConcatRun(operands: seq<seq<Instr>>, depth: nat)
    requires forall i :: 0 <= i < |operands| ==> Run(operands[i], depth + i) == Some(depth + i + 1)
    ensures Run(Concat(operands), depth) == Some(depth + |operands|)
  {
    if |operands| > 0 {
      ConcatRun(operands[1..], depth + 1);
      Sequenced(operands[0], Concat(operands[1..]), depth, depth + 1);
    }
  }

  /**
   * Lowered code never pops an empty stack and leaves exactly one more value
   * than it found: the VM's evaluation stack holds the expression's value
   * when it reaches END.
   */
  lemma {:induction false} BuildStackEffect(assets: Assets, scope: Scope, e: Expr, assignable: bool, depth: nat)
    requires NoCollectionLiterals(e) && Build(assets, scope, e, assignable).Ok?
    ensures Run(Build(assets, scope, e, assignable).value, depth) == Some(depth + 1)
    decreases e, 1
  {
    match e
    case Literal(v, _) =>
      OneInstruction(PushConstant(assets.constantIndex(v, None)), depth);
    case Identifier(name, _) =>
      IdentifierStackEffect(assets, scope, name, assignable, depth);
    case Binary(op, l, r, slot) =>
      BinaryStackEffect(assets, scope, op, l, r, slot, assignable, depth);
    case Logical(op, l, r, slot) =>
      LogicalStackEffect(assets, scope, op, l, r, slot, assignable, depth);
    case Unary(op, a, slot) =>
      UnaryStackEffect(assets, scope, op, a, slot, assignable, depth);
    case Conditional(t, c, a, slot) =>
      ConditionalStackEffect(assets, scope, t, c, a, slot, assignable, depth);
    case Call(callee, args, slot) =>
      CallStackEffect(assets, scope, callee, args, slot, assignable, depth);
    case Member(obj, property, computed, slot) =>
      MemberStackEffect(assets, scope, obj, property, computed, slot, assignable, depth);
  }

  lemma IdentifierStackEffect(assets: Assets, scope: Scope, name: string, assignable: bool, depth: nat)
    requires BuildIdentifier(assets, scope, name, assignable).Ok?
    ensures Run(BuildIdentifier(assets, scope, name, assignable).value, depth) == Some(depth + 1)
  {
    var code := BuildIdentifier(assets, scope, name, assignable).value;
    assert |code| == 1 && Pops(code[0]) == 0 && !code[0].End?;
    assert code == [code[0]];
    OneInstruction(code[0], depth);
  }

  lemma BinaryStackEffect(assets: Assets, scope: Scope, op: string, l: Expr, r: Expr, slot: Option<string>, assignable: bool, depth: nat)
    requires NoCollectionLiterals(Binary(op, l, r, slot)) && Build(assets, scope, Binary(op, l, r, slot), assignable).Ok?
    ensures Run(Build(assets, scope, Binary(op, l, r, slot), assignable).value, depth) == Some(depth + 1)
    decreases Binary(op, l, r, slot), 0
  {
    BinaryLowering(assets, scope, op, l, r, slot, assignable);
    var cl, cr := Build(assets, scope, l, assignable).value, Build(assets, scope, r, assignable).value;
    BuildStackEffect(assets, scope, l, assignable, depth);
    BuildStackEffect(assets, scope, r, assignable, depth + 1);
    TwoOperands(BinaryIndex(BinaryExpressionOperator(op).value));
    Pair(cl, cr, Operation(BinaryIndex(BinaryExpressionOperator(op).value)), depth);
  }

  lemma LogicalStackEffect(assets: Assets, scope: Scope, op: string, l: Expr, r: Expr, slot: Option<string>, assignable: bool, depth: nat)
    requires NoCollectionLiterals(Logical(op, l, r, slot)) && Build(assets, scope, Logical(op, l, r, slot), assignable).Ok?
    ensures Run(Build(assets, scope, Logical(op, l, r, slot), assignable).value, depth) == Some(depth + 1)
    decreases Logical(op, l, r, slot), 0
  {
    LogicalLowering(assets, scope, op, l, r, slot, assignable);
    var cl, cr := Build(assets, scope, l, assignable).value, Build(assets, scope, r, assignable).value;
    BuildStackEffect(assets, scope, l, assignable, depth);
    BuildStackEffect(assets, scope, r, assignable, depth + 1);
    TwoOperands(10 + Operations.LogicalOrdinal(Operations.LogicalOperator(op).value));
    Pair(cl, cr, Operation(10 + Operations.LogicalOrdinal(Operations.LogicalOperator(op).value)), depth);
  }

  lemma TwoOperands(k: int)
    requires 0 <= k < 18
    ensures !Operation(k).End? && Pops(Operation(k)) == 2
  {
  }

  lemma Pair(cl: seq<Instr>, cr: seq<Instr>, op: Instr, depth: nat)
    requires Run(cl, depth) == Some(depth + 1) && Run(cr, depth + 1) == Some(depth + 2)
    requires !op.End? && Pops(op) == 2
    ensures Run(cl + cr + [op], depth) == Some(depth + 1)
  {
    var operands := [cl, cr];
    assert Concat(operands) == cl + cr by {
      assert operands[1..] == [cr];
      assert Concat(operands[1..][1..]) == [];
    }
    OperandsThenOp(operands, op, depth);
  }

  lemma UnaryStackEffect(assets: Assets, scope: Scope, op: string, a: Expr, slot: Option<string>, assignable: bool, depth: nat)
    requires NoCollectionLiterals(Unary(op, a, slot)) && Build(assets, scope, Unary(op, a, slot), assignable).Ok?
    ensures Run(Build(assets, scope, Unary(op, a, slot), assignable).value, depth) == Some(depth + 1)
    decreases Unary(op, a, slot), 0
  {
    UnaryLowering(assets, scope, op, a, slot, assignable);
    var k := 18 + Operations.UnaryOrdinal(Operations.UnaryOperator(op).value);
    assert Pops(Operation(k)) == 1;
    BuildStackEffect(assets, scope, a, assignable, depth);
    Single(Build(assets, scope, a, assignable).value, Operation(k), depth);
  }

  lemma Single(ca: seq<Instr>, op: Instr, depth: nat)
    requires Run(ca, depth) == Some(depth + 1)
    requires !op.End? && Pops(op) == 1
    ensures Run(ca + [op], depth) == Some(depth + 1)
  {
    Sequenced(ca, [op], depth, depth + 1);
    OneInstruction(op, depth + 1);
  }

  lemma ConditionalStackEffect(assets: Assets, scope: Scope, t: Expr, c: Expr, a: Expr, slot: Option<string>, assignable: bool, depth: nat)
    requires NoCollectionLiterals(Conditional(t, c, a, slot)) && Build(assets, scope, Conditional(t, c, a, slot), assignable).Ok?
    ensures Run(Build(assets, scope, Conditional(t, c, a, slot), assignable).value, depth) == Some(depth + 1)
    decreases Conditional(t, c, a, slot), 0
  {
    ConditionalLowering(assets, scope, t, c, a, slot, assignable);
    BuildStackEffect(assets, scope, t, assignable, depth);
    BuildStackEffect(assets, scope, c, assignable, depth + 1);
    BuildStackEffect(assets, scope, a, assignable, depth + 2);
    Triple(Build(assets, scope, t, assignable).value, Build(assets, scope, c, assignable).value, Build(assets, scope, a, assignable).value, depth);
  }

  lemma Triple(ct: seq<Instr>, cc: seq<Instr>, ca: seq<Instr>, depth: nat)
    requires Run(ct, depth) == Some(depth + 1) && Run(cc, depth + 1) == Some(depth + 2) && Run(ca, depth + 2) == Some(depth + 3)
    ensures Run(ct + cc + ca + [Operation(22)], depth) == Some(depth + 1)
  {
    var operands := [ct, cc, ca];
    assert Concat(operands) == ct + cc + ca by {
      assert operands[1..] == [cc, ca] && operands[1..][1..] == [ca] && operands[1..][1..][1..] == [];
      assert Concat([ca]) == ca;
      assert Concat([cc, ca]) == cc + ca;
    }
    OperandsThenOp(operands, Operation(22), depth);
  }

  lemma CallStackEffect(assets: Assets, scope: Scope, callee: Expr, args: seq<Expr>, slot: Option<string>, assignable: bool, depth: nat)
    requires NoCollectionLiterals(Call(callee, args, slot)) && Build(assets, scope, Call(callee, args, slot), assignable).Ok?
    ensures Run(Build(assets, scope, Call(callee, args, slot), assignable).value, depth) == Some(depth + 1)
    decreases Call(callee, args, slot), 0
  {
    var f := ResolveCall(callee, |args|).value;
    var k := 23 + Operations.FunctionOrdinal(f);
    CallCodeShape(callee, |args|, BuildAll(assets, scope, args, assignable));
    assert Build(assets, scope, Call(callee, args, slot), assignable) == CallCode(callee, |args|, BuildAll(assets, scope, args, assignable));
    BuildAllStackEffect(assets, scope, args, assignable, depth);
    ArgumentsThenCall(BuildAll(assets, scope, args, assignable).value, f, depth);
  }

  lemma CallCodeShape(callee: Expr, argumentCount: nat, arguments: Result<seq<Instr>, string>)
    requires CallCode(callee, argumentCount, arguments).Ok?
    ensures ResolveCall(callee, argumentCount).Ok? && arguments.Ok?
    ensures argumentCount == Operations.Arity(ResolveCall(callee, argumentCount).value)
    ensures CallCode(callee, argumentCount, arguments).value ==
      arguments.value + [Operation(23 + Operations.FunctionOrdinal(ResolveCall(callee, argumentCount).value))]
  {
    Operations.FunctionOperationIndex(ResolveCall(callee, argumentCount).value);
  }

  lemma ArgumentsThenCall(ca: seq<Instr>, f: Operations.BuiltInFunction, depth: nat)
    requires Run(ca, depth) == Some(depth + Operations.Arity(f))
    ensures Run(ca + [Operation(23 + Operations.FunctionOrdinal(f))], depth) == Some(depth + 1)
  {
    var k := 23 + Operations.FunctionOrdinal(f);
    assert Operations.BUILT_IN_FUNCTIONS[k - 23].1 == f by {
      match f
      case FlowIt => case MathSin => case MathCos => case MathLog => case StringFind =>
    }
    Sequenced(ca, [Operation(k)], depth, depth + Operations.Arity(f));
    OneInstruction(Operation(k), depth + Operations.Arity(f));
  }

  lemma MemberStackEffect(assets: Assets, scope: Scope, obj: Expr, property: Expr, computed: bool, slot: Option<string>, assignable: bool, depth: nat)
    requires NoCollectionLiterals(Member(obj, property, computed, slot))
    requires Build(assets, scope, Member(obj, property, computed, slot), assignable).Ok?
    ensures Run(Build(assets, scope, Member(obj, property, computed, slot), assignable).value, depth) == Some(depth + 1)
    decreases Member(obj, property, computed, slot), 0
  {
    var oc, pc := Build(assets, scope, obj, assignable), Build(assets, scope, property, assignable);
    assert Build(assets, scope, Member(obj, property, computed, slot), assignable) ==
      MemberCode(assets, scope, obj, property, computed, oc, pc);
    var code := MemberCode(assets, scope, obj, property, computed, oc, pc).value;
    MemberCodeShape(assets, scope, obj, property, computed, oc, pc);
    if ConstantMember(assets, obj, property).Some? {
      OneInstruction(code[0], depth);
    } else if computed {
      BuildStackEffect(assets, scope, obj, assignable, depth);
      BuildStackEffect(assets, scope, property, assignable, depth + 1);
      Pair(oc.value, pc.value, ArrayElement, depth);
    } else {
      var push := code[|oc.value|];
      BuildStackEffect(assets, scope, obj, assignable, depth);
      OneInstruction(push, depth + 1);
      Pair(oc.value, [push], ArrayElement, depth);
    }
  }

  /** The three forms a member access lowers to. */
  lemma MemberCodeShape(assets: Assets, scope: Scope, obj: Expr, property: Expr, computed: bool,
                        oc: Result<seq<Instr>, string>, pc: Result<seq<Instr>, string>)
    requires MemberCode(assets, scope, obj, property, computed, oc, pc).Ok?
    ensures var code := MemberCode(assets, scope, obj, property, computed, oc, pc).value;
      if ConstantMember(assets, obj, property).Some? then code == [code[0]] && code[0].PushConstant?
      else if computed then (oc.Ok? && pc.Ok? && code == oc.value + pc.value + [ArrayElement])
      else (oc.Ok? && |code| == |oc.value| + 2 && code[|oc.value|].PushConstant? &&
        code == oc.value + [code[|oc.value|]] + [ArrayElement])
  {
  }

  lemma BuildAllStackEffect(assets: Assets, scope: Scope, es: seq<Expr>, assignable: bool, depth: nat)
    requires NoneHasCollectionLiterals(es)
    requires BuildAll(assets, scope, es, assignable).Ok?
    ensures Run(BuildAll(assets, scope, es, assignable).value, depth) == Some(depth + |es|)
    decreases es, 1
  {
    BuildAllIsCollect(assets, scope, es, assignable);
    EachStackEffect(assets, scope, es, assignable, depth);
    CollectRun(Codes(assets, scope, es, assignable), depth);
  }

  /** Every argument's code leaves one more value, starting from the values of the arguments before it. */
  lemma EachStackEffect(assets: Assets, scope: Scope, es: seq<Expr>, assignable: bool, depth: nat)
    requires NoneHasCollectionLiterals(es)
    requires Collect(Codes(assets, scope, es, assignable)).Ok?
    ensures var codes := Codes(assets, scope, es, assignable);
      forall i :: 0 <= i < |codes| ==> codes[i].Ok? && Run(codes[i].value, depth + i) == Some(depth + i + 1)
    decreases es, 0
  {
    var codes := Codes(assets, scope, es, assignable);
    CollectEach(codes);
    forall i | 0 <= i < |codes| ensures codes[i].Ok? && Run(codes[i].value, depth + i) == Some(depth + i + 1) {
      ElementStackEffect(assets, scope, es, assignable, i, depth);
    }
  }

  lemma ElementStackEffect(assets: Assets, scope: Scope, es: seq<Expr>, assignable: bool, i: nat, depth: nat)
    requires NoneHasCollectionLiterals(es) && i < |es|
    requires Codes(assets, scope, es, assignable)[i].Ok?
    ensures Run(Codes(assets, scope, es, assignable)[i].value, depth + i) == Some(depth + i + 1)
    decreases es[i], 3
  {
    CodesAt(assets, scope, es, assignable, i);
    NoneHasEach(es, i);
    BuildStackEffect(assets, scope, es[i], assignable, depth + i);
    SameRun(Codes(assets, scope, es, assignable)[i], Build(assets, scope, es[i], assignable), depth + i);
  }

  lemma SameRun(code: Result<seq<Instr>, string>, other: Result<seq<Instr>, string>, depth: nat)
    requires code == other && other.Ok? && Run(other.value, depth) == Some(depth + 1)
    ensures code.Ok? && Run(code.value, depth) == Some(depth + 1)
  {
  }

  /** Codes each leaving one more value, collected, leave one value apiece. */
  lemma {:induction false} CollectRun(codes: seq<Result<seq<Instr>, string>>, depth: nat)
    requires forall i :: 0 <= i < |codes| ==> codes[i].Ok? && Run(codes[i].value, depth + i) == Some(depth + i + 1)
    ensures Collect(codes).Ok? && Run(Collect(codes).value, depth) == Some(depth + |codes|)
  {
    if |codes| > 0 {
      assert forall i :: 0 <= i < |codes| - 1 ==> codes[1..][i] == codes[i + 1];
      CollectRun(codes[1..], depth + 1);
      Sequenced(codes[0].value, Collect(codes[1..]).value, depth, depth + 1);
    }
  }

  lemma {:induction false} NoneHasEach(es: seq<Expr>, i: nat)
    requires NoneHasCollectionLiterals(es) && i < |es|
    ensures NoCollectionLiterals(es[i])
  {
    if i > 0 {
      NoneHasEach(es[1..], i - 1);
    }
  }

  // ---------------------------------------------------------------------------
  // Entry points

  lemma {:induction false} EraseAllEach(es: seq<Expr>)
    ensures |EraseAll(es)| == |es|
    ensures forall i :: 0 <= i < |es| ==> EraseAll(es)[i] == Erase(es[i])
  {
    if |es| > 0 {
      EraseAllEach(es[1..]);
      assert forall i :: 1 <= i < |es| ==> es[1..][i - 1] == es[i];
    }
  }

  /** Clearing the type slots changes neither which nodes occur nor assignability. */
  lemma {:induction false} EraseKeepsKinds(e: Expr)
    ensures NoCollectionLiterals(Erase(e)) == NoCollectionLiterals(e)
    ensures IsAssignable(Erase(e)) == IsAssignable(e)
    decreases e, 1
  {
    match e
    case Binary(_, l, r, _) => EraseKeepsKinds(l); EraseKeepsKinds(r);
    case Logical(_, l, r, _) => EraseKeepsKinds(l); EraseKeepsKinds(r);
    case Unary(_, a, _) => EraseKeepsKinds(a);
    case Conditional(t, c, a, _) => EraseKeepsKinds(t); EraseKeepsKinds(c); EraseKeepsKinds(a);
    case Member(o, p, _, _) => EraseKeepsKinds(o); EraseKeepsKinds(p);
    case Call(callee, args, _) => EraseAllKeepsKinds(args);
    case _ =>
  }

  lemma {:induction false} EraseAllKeepsKinds(es: seq<Expr>)
    ensures NoneHasCollectionLiterals(EraseAll(es)) == NoneHasCollectionLiterals(es)
    decreases es, 0
  {
    if |es| > 0 {
      EraseKeepsKinds(es[0]);
      EraseAllKeepsKinds(es[1..]);
      assert EraseAll(es)[1..] == EraseAll(es[1..]);
    }
  }

  /** The annotated tree has the parsed tree's node kinds. */
  lemma InferKeepsKinds(scope: Scope, root: Expr, assignable: bool)
    requires Infer(scope, root, assignable).Ok?
    ensures NoCollectionLiterals(Infer(scope, root, assignable).value) == NoCollectionLiterals(root)
    ensures IsAssignable(Infer(scope, root, assignable).value) == IsAssignable(root)
  {
    InferKeepsShape(scope, root, assignable);
    EraseKeepsKinds(root);
    EraseKeepsKinds(Infer(scope, root, assignable).value);
  }

  /**
   * What `buildExpression` lowers ends in END, holds no other END, and
   * leaves exactly one value, the expression's, on an empty stack.
   */
  lemma BuildExpressionShape(assets: Assets, scope: Scope, source: Source, parse: string -> Result<Expr, string>)
    requires BuildExpression(assets, scope, source, parse).Ok?
    requires source.Text? && parse(source.text).Ok? ==> NoCollectionLiterals(parse(source.text).value)
    ensures var code := BuildExpression(assets, scope, source, parse).value;
      |code| >= 1 && code[|code| - 1] == End && Run(code[..|code| - 1], 0) == Some(1) &&
      forall i :: 0 <= i < |code| - 1 ==> !code[i].End?
  {
    var code := BuildExpression(assets, scope, source, parse).value;
    if source.Text? && source.text != "" {
      var root := parse(source.text).value;
      InferKeepsKinds(scope, root, false);
      var annotated := Infer(scope, root, false).value;
      BuildStackEffect(assets, scope, annotated, false, 0);
      assert code[..|code| - 1] == Build(assets, scope, annotated, false).value;
    } else {
      assert code[..|code| - 1] == [code[0]];
      OneInstruction(code[0], 0);
    }
    RunHasNoEnd(code[..|code| - 1], 0);
  }

  /** An absent or empty expression lowers as the literal `undefined` does, and a number as its literal. */
  lemma ConstantSourceLowering(assets: Assets, scope: Scope, parse: string -> Result<Expr, string>, t: Option<string>, n: Value)
    ensures BuildExpression(assets, scope, Text(""), parse) == BuildExpression(assets, scope, Missing, parse)
    ensures BuildExpression(assets, scope, Missing, parse) == Ok(Build(assets, scope, Literal(Undefined, t), false).value + [End])
    ensures BuildExpression(assets, scope, NumberSource(n), parse) == Ok(Build(assets, scope, Literal(n, t), false).value + [End])
  {
    assert [PushConstant(assets.constantIndex(Undefined, None))] + [End] == [PushConstant(assets.constantIndex(Undefined, None)), End];
    assert [PushConstant(assets.constantIndex(n, None))] + [End] == [PushConstant(assets.constantIndex(n, None)), End];
  }

  /**
   * `buildAssignableExpression` refuses exactly the parsed trees that are not
   * assignable, once parsing and inference succeed.
   */
  lemma AssignableLowering(assets: Assets, scope: Scope, text: string, parse: string -> Result<Expr, string>)
    ensures var r := BuildAssignableExpression(assets, scope, text, parse);
      var root := Parse(parse, text);
      root.Ok? && Infer(scope, root.value, true).Ok? && !IsAssignable(root.value) ==> r == Err("Expression is not assignable")
    ensures var r := BuildAssignableExpression(assets, scope, text, parse);
      r.Ok? ==> Parse(parse, text).Ok? && IsAssignable(Parse(parse, text).value)
  {
    var root := Parse(parse, text);
    if root.Ok? && Infer(scope, root.value, true).Ok? {
      InferKeepsKinds(scope, root.value, true);
    }
  }

  /** What `buildAssignableExpression` lowers ends in END with one value left. */
  lemma AssignableShape(assets: Assets, scope: Scope, text: string, parse: string -> Result<Expr, string>)
    requires BuildAssignableExpression(assets, scope, text, parse).Ok?
    requires parse(text).Ok? ==> NoCollectionLiterals(parse(text).value)
    ensures var code := BuildAssignableExpression(assets, scope, text, parse).value;
      |code| >= 1 && code[|code| - 1] == End && Run(code[..|code| - 1], 0) == Some(1) &&
      forall i :: 0 <= i < |code| - 1 ==> !code[i].End?
  {
    AssignableCode(assets, scope, text, parse);
    var root := parse(text).value;
    InferKeepsKinds(scope, root, true);
    var annotated := Infer(scope, root, true).value;
    BuildStackEffect(assets, scope, annotated, true, 0);
    BodyThenEnd(Build(assets, scope, annotated, true).value, BuildAssignableExpression(assets, scope, text, parse).value);
  }

  lemma AssignableCode(assets: Assets, scope: Scope, text: string, parse: string -> Result<Expr, string>)
    requires BuildAssignableExpression(assets, scope, text, parse).Ok?
    ensures parse(text).Ok? && Infer(scope, parse(text).value, true).Ok?
    ensures Build(assets, scope, Infer(scope, parse(text).value, true).value, true).Ok?
    ensures BuildAssignableExpression(assets, scope, text, parse).value ==
      Build(assets, scope, Infer(scope, parse(text).value, true).value, true).value + [End]
  {
  }

  lemma BodyThenEnd(body: seq<Instr>, code: seq<Instr>)
    requires code == body + [End] && Run(body, 0) == Some(1)
    ensures |code| >= 1 && code[|code| - 1] == End && Run(code[..|code| - 1], 0) == Some(1)
    ensures forall i :: 0 <= i < |code| - 1 ==> !code[i].End?
  {
    assert code[..|code| - 1] == body;
    RunHasNoEnd(body, 0);
  }

  /**
   * A call whose callee is unknown or whose argument count is wrong fails
   * with the same message in inference, in either checking mode and in
   * lowering.
   */
  lemma CallErrorEverywhere(assets: Assets, scope: Scope, callee: Expr, args: seq<Expr>, slot: Option<string>, assignable: bool, mode: Mode)
    requires ResolveCall(callee, |args|).Err?
    ensures Infer(scope, Call(callee, args, slot), assignable) == Err(ResolveCall(callee, |args|).error)
    ensures Checker.Check(scope, Call(callee, args, slot), mode) == Err(ResolveCall(callee, |args|).error)
    ensures Build(assets, scope, Call(callee, args, slot), assignable) == Err(ResolveCall(callee, |args|).error)
  {
  }
}
