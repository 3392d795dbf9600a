/**
 * The operator and built-in function catalog of the flow expression language:
 * the binary, logical and unary operator tables, the built-in functions and
 * constants, each operator's value-type rule and evaluation, and the
 * operation-index table that the target VM depends on.
 */
module Operations {
  import opened Wrappers
  import opened JsValues
  import JsInt
  import Strings

  datatype BinaryOp = Add | Sub | Mul | Div | Mod | LeftShift | RightShift | BinaryAnd | BinaryOr | BinaryXor
  datatype LogicalOp = Equal | NotEqual | Less | Greater | LessOrEqual | GreaterOrEqual | LogicalAnd | LogicalOr
  datatype UnaryOp = UnaryPlus | UnaryMinus | OneComplement | Not
  datatype BuiltInFunction = FlowIt | MathSin | MathCos | MathLog | StringFind

  /** `binaryOperators`, keyed by source symbol, in declaration order. */
  const BINARY_OPERATORS: seq<(string, BinaryOp)> := [
    ("+", Add), ("-", Sub), ("*", Mul), ("/", Div), ("%", Mod),
    ("<<", LeftShift), (">>", RightShift), ("&", BinaryAnd), ("|", BinaryOr), ("^", BinaryXor)]

  /** `logicalOperators`, keyed by source symbol, in declaration order. */
  const LOGICAL_OPERATORS: seq<(string, LogicalOp)> := [
    ("==", Equal), ("!=", NotEqual), ("<", Less), (">", Greater),
    ("<=", LessOrEqual), (">=", GreaterOrEqual), ("&&", LogicalAnd), ("||", LogicalOr)]

  /** `unaryOperators`, keyed by source symbol, in declaration order. */
  const UNARY_OPERATORS: seq<(string, UnaryOp)> := [
    ("+", UnaryPlus), ("-", UnaryMinus), ("~", OneComplement), ("!", Not)]

  /** `builtInFunctions`, keyed by their qualified name, in declaration order. */
  const BUILT_IN_FUNCTIONS: seq<(string, BuiltInFunction)> := [
    ("Flow.it", FlowIt), ("Math.sin", MathSin), ("Math.cos", MathCos),
    ("Math.log", MathLog), ("String.find", StringFind)]

  const CONDITIONAL_OPERATOR: string := "conditional"

  /** The entry stored under `key`, as `table[key]` reads an object literal. */
  function Lookup<T>(table: seq<(string, T)>, key: string): (r: Option<T>)
    ensures r.Some? <==> exists i :: 0 <= i < |table| && table[i].0 == key
    ensures r.Some? ==> exists i :: 0 <= i < |table| && table[i] == (key, r.value)
  {
    if |table| == 0 then None
    else if table[0].0 == key then Some(table[0].1)
    else
      var r := Lookup(table[1..], key);
      assert forall i :: 0 < i < |table| ==> table[i] == table[1..][i - 1];
      r
  }

  function BinaryOperator(symbol: string): Option<BinaryOp> { Lookup(BINARY_OPERATORS, symbol) }
  function LogicalOperator(symbol: string): Option<LogicalOp> { Lookup(LOGICAL_OPERATORS, symbol) }
  function UnaryOperator(symbol: string): Option<UnaryOp> { Lookup(UNARY_OPERATORS, symbol) }
  function FunctionNamed(name: string): Option<BuiltInFunction> { Lookup(BUILT_IN_FUNCTIONS, name) }

  /** The `name` field of each operator entry: the VM's operation name. */
  function BinaryName(op: BinaryOp): string
  {
    match op
    case Add => "add"
    case Sub => "sub"
    case Mul => "mul"
    case Div => "div"
    case Mod => "mod"
    case LeftShift => "left_shift"
    case RightShift => "right_shift"
    case BinaryAnd => "binary_and"
    case BinaryOr => "binary_or"
    case BinaryXor => "binary_xor"
  }

  function LogicalName(op: LogicalOp): string
  {
    match op
    case Equal => "equal"
    case NotEqual => "not_equal"
    case Less => "less"
    case Greater => "greater"
    case LessOrEqual => "less_or_equal"
    case GreaterOrEqual => "greater_or_equal"
    case LogicalAnd => "logical_and"
    case LogicalOr => "logical_or"
  }

  function UnaryName(op: UnaryOp): string
  {
    match op
    case UnaryPlus => "unary_plus"
    case UnaryMinus => "unary_minus"
    case OneComplement => "binary_one_complement"
    case Not => "not"
  }

  /** A built-in function's key doubles as its operation name. */
  function FunctionName(f: BuiltInFunction): string
  {
    match f
    case FlowIt => "Flow.it"
    case MathSin => "Math.sin"
    case MathCos => "Math.cos"
    case MathLog => "Math.log"
    case StringFind => "String.find"
  }

  function Arity(f: BuiltInFunction): nat
  {
    match f
    case StringFind => 2
    case _ => 1
  }

  // ---------------------------------------------------------------------------
  // Value-type rules

  predicate IsNumeric(t: string) { t == "integer" || t == "float" || t == "double" }

  /** `getValueType` of each binary operator, as the operator table writes it. */
  function BinaryValueType(op: BinaryOp, a: string, b: string): string
  {
    match op
    case Add =>
      if !IsNumeric(a) && a != "string" then "undefined"
      else if !IsNumeric(b) && b != "string" then "undefined"
      else if a == "string" || b == "string" then "string"
      else if a == "double" || b == "double" then "double"
      else if a == "float" || b == "float" then "float"
      else "integer"
    case Sub => NumericValueType(a, b)
    case Mul => NumericValueType(a, b)
    case Div => NumericValueType(a, b)
    case _ => if a != "integer" then "undefined" else if b != "integer" then "undefined" else "integer"
  }

  function NumericValueType(a: string, b: string): string
  {
    if !IsNumeric(a) then "undefined"
    else if !IsNumeric(b) then "undefined"
    else if a == "double" || b == "double" then "double"
    else if a == "float" || b == "float" then "float"
    else "integer"
  }

  function LogicalValueType(op: LogicalOp, a: string, b: string): string
  {
    "boolean"
  }

  function UnaryValueType(op: UnaryOp, a: string): string
  {
    match op
    case UnaryPlus => if !IsNumeric(a) then "undefined" else a
    case UnaryMinus => if !IsNumeric(a) then "undefined" else a
    case OneComplement => if a != "integer" then "undefined" else a
    case Not => if !IsNumeric(a) then "undefined" else "boolean"
  }

  /** `getValueType` of a built-in function, given its arguments' types. */
  function FunctionValueType(f: BuiltInFunction, args: seq<string>): string
    requires |args| == Arity(f)
  {
    match f
    case FlowIt => "integer"
    case StringFind => if args[0] != "string" && args[1] != "string" then "undefined" else "integer"
    case _ =>
      if !IsNumeric(args[0]) then "undefined"
      else if args[0] == "float" then "float"
      else "double"
  }

  /** The promotion ladder integer < float < double < string. */
  function Rank(t: string): Option<nat>
  {
    if t == "integer" then Some(0)
    else if t == "float" then Some(1)
    else if t == "double" then Some(2)
    else if t == "string" then Some(3)
    else None
  }

  function RankedType(r: nat): string
  {
    if r == 0 then "integer" else if r == 1 then "float" else if r == 2 then "double" else "string"
  }

  function Max(x: nat, y: nat): nat { if x >= y then x else y }

  /**
   * `+` yields the higher of its operand types on the ladder, and "undefined"
   * unless both are on it.
   */
  lemma AddTypeIsMaximum(a: string, b: string)
    ensures BinaryValueType(Add, a, b) ==
      if Rank(a).Some? && Rank(b).Some? then RankedType(Max(Rank(a).value, Rank(b).value)) else "undefined"
  {
  }

  /** `-`, `*` and `/` follow the same ladder below string, so string operands give "undefined". */
  lemma ArithmeticTypeIsMaximum(op: BinaryOp, a: string, b: string)
    requires op == Sub || op == Mul || op == Div
    ensures BinaryValueType(op, a, b) ==
      if IsNumeric(a) && IsNumeric(b) then RankedType(Max(Rank(a).value, Rank(b).value)) else "undefined"
  {
  }

  /** `%`, `<<`, `>>`, `&`, `|` and `^` yield integer exactly when both operands are integer. */
  lemma IntegerOperatorType(op: BinaryOp, a: string, b: string)
    requires !(op == Add || op == Sub || op == Mul || op == Div)
    ensures BinaryValueType(op, a, b) == (if a == "integer" && b == "integer" then "integer" else "undefined")
  {
  }

  /** Every binary operator's result type is "undefined" or a type on the ladder. */
  lemma BinaryTypeOnLadder(op: BinaryOp, a: string, b: string)
    ensures var t := BinaryValueType(op, a, b); t == "undefined" || Rank(t).Some?
    ensures BinaryValueType(op, a, b) == "string" ==> op == Add && (a == "string" || b == "string")
  {
  }

  /** Unary rules: `+`/`-` keep a numeric type, `~` accepts only integer, `!` maps numeric to boolean. */
  lemma UnaryTypeRules(op: UnaryOp, a: string)
    ensures UnaryValueType(op, a) != "undefined" <==> (if op == OneComplement then a == "integer" else IsNumeric(a))
    ensures op != Not && UnaryValueType(op, a) != "undefined" ==> UnaryValueType(op, a) == a
    ensures op == Not && UnaryValueType(op, a) != "undefined" ==> UnaryValueType(op, a) == "boolean"
  {
  }

  /** Math.sin/cos/log keep float and widen integer and double to double; String.find needs one string argument. */
  lemma FunctionTypeRules(f: BuiltInFunction, args: seq<string>)
    requires |args| == Arity(f)
    ensures f == FlowIt ==> FunctionValueType(f, args) == "integer"
    ensures (f == MathSin || f == MathCos || f == MathLog) ==>
      FunctionValueType(f, args) == (if args[0] == "float" then "float" else if IsNumeric(args[0]) then "double" else "undefined")
    ensures f == StringFind ==>
      (FunctionValueType(f, args) == "undefined" <==> args[0] != "string" && args[1] != "string")
  {
  }

  // ---------------------------------------------------------------------------
  // Evaluation (`eval` of each entry), where the result is integral or boolean

  function Abs(x: int): int { if x >= 0 then x else -x }

  /** The quotient rounded toward zero. */
  function TruncatedQuotient(a: int, b: int): int
    requires b != 0
  {
    if a >= 0 then a / b else -((-a) / b)
  }

  /** JavaScript `a % b` on integers: the remainder takes the sign of the dividend. */
  function TruncatedRemainder(a: int, b: int): (r: int)
    requires b != 0
    ensures a >= 0 ==> 0 <= r < Abs(b)
    ensures a < 0 ==> -Abs(b) < r <= 0
    ensures a == b * TruncatedQuotient(a, b) + r
  {
    if a >= 0 then a % b
    else
      var m := (-a) % b;
      assert -a == b * ((-a) / b) + m;
      -m
  }

  function BinaryEval(op: BinaryOp, a: Value, b: Value): Option<Value>
  {
    if op == Add then Plus(a, b)
    else if !(a.Num? && b.Num?) then None
    else
      var x, y := a.n, b.n;
      match op
      case Sub => Some(Num(x - y))
      case Mul => Some(Num(x * y))
      case Div => if y != 0 && x % y == 0 then Some(Num(x / y)) else None
      case Mod => if y != 0 then Some(Num(TruncatedRemainder(x, y))) else None
      case LeftShift => Some(Num(JsInt.ShiftLeft(x, y)))
      case RightShift => Some(Num(JsInt.ShiftRight(x, y)))
      case BinaryAnd => Some(Num(JsInt.Bitwise(JsInt.And, x, y)))
      case BinaryOr => Some(Num(JsInt.Bitwise(JsInt.Or, x, y)))
      case BinaryXor => Some(Num(JsInt.Bitwise(JsInt.Xor, x, y)))
  }

  /**
   * On two numbers `-`, `*` and the shift and bitwise operators always give a
   * number, the latter a 32-bit signed one; `/` gives one exactly when the
   * division is exact, and then undoes the multiplication; `%` gives one
   * unless the divisor is 0.
   */
  lemma BinaryEvalOnNumbers(op: BinaryOp, x: int, y: int)
    ensures op != Div && op != Mod ==> BinaryEval(op, Num(x), Num(y)).Some?
    ensures BinaryEval(Div, Num(x), Num(y)).Some? <==> y != 0 && x % y == 0
    ensures BinaryEval(Div, Num(x), Num(y)).Some? ==> BinaryEval(Div, Num(x), Num(y)).value.n * y == x
    ensures BinaryEval(Mod, Num(x), Num(y)).Some? <==> y != 0
    ensures op in {LeftShift, RightShift, BinaryAnd, BinaryOr, BinaryXor} ==>
      -JsInt.TWO31 <= BinaryEval(op, Num(x), Num(y)).value.n < JsInt.TWO31
  {
    if y != 0 && x % y == 0 {
      assert x == y * (x / y) + x % y;
    }
    if op == RightShift {
      JsInt.DivInRange(JsInt.ToInt32(x), JsInt.Pow2(JsInt.ToUint32(y) % 32));
    }
  }

  /** Every binary operator but `+` needs two numbers; JavaScript's coercion of other operands is not modelled. */
  lemma BinaryEvalNeedsNumbers(op: BinaryOp, a: Value, b: Value)
    requires op != Add && !(a.Num? && b.Num?)
    ensures BinaryEval(op, a, b).None?
  {
  }

  function LogicalEval(op: LogicalOp, a: Value, b: Value): Option<Value>
  {
    match op
    case Equal => EqualityValue(a, b, false)
    case NotEqual => EqualityValue(a, b, true)
    case Less => CompareValue(Lt, a, b)
    case Greater => CompareValue(Gt, a, b)
    case LessOrEqual => CompareValue(Le, a, b)
    case GreaterOrEqual => CompareValue(Ge, a, b)
    case LogicalAnd => Some(if Truthy(a) then b else a)
    case LogicalOr => Some(if Truthy(a) then a else b)
  }

  /** `a == b`, or `a != b` when `negate` holds. */
  function EqualityValue(a: Value, b: Value, negate: bool): Option<Value>
  {
    match LooseEquals(a, b)
    case Some(e) => Some(Bool(e != negate))
    case None => None
  }

  function CompareValue(rel: Relation, a: Value, b: Value): Option<Value>
  {
    match Compare(rel, a, b) case Some(c) => Some(Bool(c)) case None => None
  }

  /** `&&` and `||` return one of their operands, chosen by the first one's truthiness. */
  lemma ShortCircuitOperands(a: Value, b: Value)
    ensures LogicalEval(LogicalAnd, a, b) == Some(if Truthy(a) then b else a)
    ensures LogicalEval(LogicalOr, a, b) == Some(if Truthy(a) then a else b)
    ensures Truthy(LogicalEval(LogicalAnd, a, b).value) == (Truthy(a) && Truthy(b))
    ensures Truthy(LogicalEval(LogicalOr, a, b).value) == (Truthy(a) || Truthy(b))
  {
  }

  /** ToNumber on the values whose number is integral: numbers, booleans and null. */
  function IntegralNumber(a: Value): Option<int>
  {
    match a
    case Num(x) => Some(x)
    case Bool(t) => Some(if t then 1 else 0)
    case Null => Some(0)
    case _ => None
  }

  function UnaryEval(op: UnaryOp, a: Value): Option<Value>
  {
    if op == Not then Some(Bool(!Truthy(a)))
    else if op == OneComplement && a.Undefined? then Some(Num(-1))
    else match IntegralNumber(a)
      case None => None
      case Some(x) =>
        Some(Num(if op == UnaryPlus then x else if op == UnaryMinus then -x else JsInt.BitNot(x)))
  }

  /** `~` is its own inverse on 32-bit integers. */
  lemma OneComplementInvolution(x: int)
    requires -JsInt.TWO31 <= x < JsInt.TWO31
    ensures UnaryEval(OneComplement, UnaryEval(OneComplement, Num(x)).value) == Some(Num(x))
  {
  }

  /**
   * A built-in function call. `it` is the value of `$it` in the evaluation's
   * data context, or None when there is no context; Flow.it then gives 0.
   * Math.sin, Math.cos and Math.log compute floating-point values, and
   * String.find computes `Math.log` of its first argument, so none of them
   * are modelled.
   */
  function FunctionEval(f: BuiltInFunction, it: Option<Value>, args: seq<Value>): (r: Option<Value>)
    ensures f == FlowIt ==> r == Some(it.GetOr(Num(0)))
    ensures f != FlowIt ==> r == None
  {
    match f
    case FlowIt => Some(it.GetOr(Num(0)))
    case _ => None
  }

  /** `builtInConstants`: Math.PI, a double. */
  function BuiltInConstant(name: string): (r: Option<(Value, string)>)
    ensures r.Some? <==> name == "Math.PI"
  {
    if name == "Math.PI" then Some((Opaque("Math.PI"), "double")) else None
  }

  // ---------------------------------------------------------------------------
  // Operation indexes

  function BinaryNames(): seq<string>
  {
    seq(|BINARY_OPERATORS|, i requires 0 <= i < |BINARY_OPERATORS| => BinaryName(BINARY_OPERATORS[i].1))
  }

  function LogicalNames(): seq<string>
  {
    seq(|LOGICAL_OPERATORS|, i requires 0 <= i < |LOGICAL_OPERATORS| => LogicalName(LOGICAL_OPERATORS[i].1))
  }

  function UnaryNames(): seq<string>
  {
    seq(|UNARY_OPERATORS|, i requires 0 <= i < |UNARY_OPERATORS| => UnaryName(UNARY_OPERATORS[i].1))
  }

  function FunctionKeys(): seq<string>
  {
    seq(|BUILT_IN_FUNCTIONS|, i requires 0 <= i < |BUILT_IN_FUNCTIONS| => BUILT_IN_FUNCTIONS[i].0)
  }

  /** The operation names in the order `buildOperationIndexes` numbers them. */
  function OperationNames(): seq<string>
  {
    BinaryNames() + LogicalNames() + UnaryNames() + [CONDITIONAL_OPERATOR] + FunctionKeys()
  }

  lemma OperationNamesValue()
    ensures OperationNames() == [
      "add", "sub", "mul", "div", "mod", "left_shift", "right_shift", "binary_and", "binary_or", "binary_xor",
      "equal", "not_equal", "less", "greater", "less_or_equal", "greater_or_equal", "logical_and", "logical_or",
      "unary_plus", "unary_minus", "binary_one_complement", "not",
      "conditional",
      "Flow.it", "Math.sin", "Math.cos", "Math.log", "String.find"]
  {
    BinaryNamesValue();
    LogicalNamesValue();
    UnaryNamesValue();
    FunctionKeysValue();
  }

  lemma BinaryNamesValue()
    ensures BinaryNames() == [
      "add", "sub", "mul", "div", "mod", "left_shift", "right_shift", "binary_and", "binary_or", "binary_xor"]
  {
  }

  lemma LogicalNamesValue()
    ensures LogicalNames() == [
      "equal", "not_equal", "less", "greater", "less_or_equal", "greater_or_equal", "logical_and", "logical_or"]
  {
  }

  lemma UnaryNamesValue()
    ensures UnaryNames() == ["unary_plus", "unary_minus", "binary_one_complement", "not"]
  {
  }

  lemma FunctionKeysValue()
    ensures FunctionKeys() == ["Flow.it", "Math.sin", "Math.cos", "Math.log", "String.find"]
  {
  }

  predicate Distinct(s: seq<string>)
  {
    forall i, j :: 0 <= i < j < |s| ==> s[i] != s[j]
  }

  lemma OperationNamesDistinct()
    ensures |OperationNames()| == 28 && Distinct(OperationNames())
  {
    var names := OperationNames();
    NamesRanked();
    forall i, j | 0 <= i < j < |names| ensures names[i] != names[j] {
      assert NameRank(NameKey(names[i])) == i && NameRank(NameKey(names[j])) == j;
    }
  }

  /** Each operation name's key identifies its position among the names. */
  lemma NamesRanked()
    ensures |OperationNames()| == 28
    ensures forall i :: 0 <= i < |OperationNames()| ==> NameRank(NameKey(OperationNames()[i])) == i
  {
    var b, l, u, f := BinaryNames(), LogicalNames(), UnaryNames(), FunctionKeys();
    BinaryRanked();
    LogicalRanked();
    UnaryRanked();
    FunctionsRanked();
    assert NameRank(NameKey(CONDITIONAL_OPERATOR)) == 22;
    var names := OperationNames();
    forall i | 0 <= i < |names| ensures NameRank(NameKey(names[i])) == i {
      if i < 10 {
        assert names[i] == b[i];
      } else if i < 18 {
        assert names[i] == l[i - 10];
      } else if i < 22 {
        assert names[i] == u[i - 18];
      } else if i == 22 {
        assert names[i] == CONDITIONAL_OPERATOR;
      } else {
        assert names[i] == f[i - 23];
      }
    }
  }

  lemma BinaryRanked()
    ensures |BinaryNames()| == 10
    ensures forall i :: 0 <= i < 10 ==> NameRank(NameKey(BinaryNames()[i])) == i
  {
  }

  lemma LogicalRanked()
    ensures |LogicalNames()| == 8
    ensures forall i :: 0 <= i < 8 ==> NameRank(NameKey(LogicalNames()[i])) == 10 + i
  {
  }

  lemma UnaryRanked()
    ensures |UnaryNames()| == 4
    ensures forall i :: 0 <= i < 4 ==> NameRank(NameKey(UnaryNames()[i])) == 18 + i
  {
  }

  lemma FunctionsRanked()
    ensures |FunctionKeys()| == 5
    ensures forall i :: 0 <= i < 5 ==> NameRank(NameKey(FunctionKeys()[i])) == 23 + i
  {
  }

  /** Names of different length, or with a different first or last character, have different keys. */
  function NameKey(name: string): int
  {
    if |name| == 0 then 0 else (|name| * 128 + name[0] as int) * 128 + name[|name| - 1] as int
  }

  /** The position among the operation names of the name with key `key`. */
  function NameRank(key: int): int
  {
    if key == 61668 then 0 else
    if key == 63970 then 1 else
    if key == 63212 then 2 else
    if key == 62070 then 3 else
    if key == 63204 then 4 else
    if key == 177780 then 5 else
    if key == 194932 then 6 else
    if key == 176484 then 7 else
    if key == 160114 then 8 else
    if key == 176498 then 9 else
    if key == 94956 then 10 else
    if key == 161644 then 11 else
    if key == 79475 then 12 else
    if key == 127986 then 13 else
    if key == 226924 then 14 else
    if key == 275436 then 15 else
    if key == 194148 then 16 else
    if key == 177778 then 17 else
    if key == 178931 then 18 else
    if key == 195315 then 19 else
    if key == 356724 then 20 else
    if key == 63348 then 21 else
    if key == 193004 then 22 else
    if key == 123764 then 23 else
    if key == 141038 then 24 else
    if key == 141043 then 25 else
    if key == 141031 then 26 else
    if key == 190948 then 27 else
    -1
  }

  /** The position of `name` in `names`, if it occurs. */
  function IndexOf(names: seq<string>, name: string): (r: Option<nat>)
    ensures r.Some? ==> r.value < |names| && names[r.value] == name
    ensures r.None? ==> name !in names
    ensures r.Some? ==> forall j :: 0 <= j < r.value ==> names[j] != name
  {
    if |names| == 0 then None
    else if names[0] == name then Some(0)
    else match IndexOf(names[1..], name)
      case Some(k) => Some(k + 1)
      case None => None
  }

  /** The operation index the lowering emits for an operation name. */
  function OperationIndex(name: string): Option<nat>
  {
    IndexOf(OperationNames(), name)
  }

  function BinaryOrdinal(op: BinaryOp): (k: nat)
    ensures k < 10
  {
    match op
    case Add => 0 case Sub => 1 case Mul => 2 case Div => 3 case Mod => 4
    case LeftShift => 5 case RightShift => 6 case BinaryAnd => 7 case BinaryOr => 8 case BinaryXor => 9
  }

  function LogicalOrdinal(op: LogicalOp): (k: nat)
    ensures k < 8
  {
    match op
    case Equal => 0 case NotEqual => 1 case Less => 2 case Greater => 3
    case LessOrEqual => 4 case GreaterOrEqual => 5 case LogicalAnd => 6 case LogicalOr => 7
  }

  function UnaryOrdinal(op: UnaryOp): (k: nat)
    ensures k < 4
  {
    match op
    case UnaryPlus => 0 case UnaryMinus => 1 case OneComplement => 2 case Not => 3
  }

  function FunctionOrdinal(f: BuiltInFunction): (k: nat)
    ensures k < 5
  {
    match f
    case FlowIt => 0 case MathSin => 1 case MathCos => 2 case MathLog => 3 case StringFind => 4
  }

  /** Binary operators take indexes 0-9, in table order. */
  lemma BinaryOperationIndex(op: BinaryOp)
    ensures OperationIndex(BinaryName(op)) == Some(BinaryOrdinal(op))
  {
    OperationNamesDistinct();
    var k := BinaryOrdinal(op);
    assert BINARY_OPERATORS[BinaryOrdinal(op)].1 == op;
    assert OperationNames()[k] == BinaryNames()[BinaryOrdinal(op)];
    IndexOfDistinct(OperationNames(), k);
  }

  /** Logical operators take indexes 10-17. */
  lemma LogicalOperationIndex(op: LogicalOp)
    ensures OperationIndex(LogicalName(op)) == Some(10 + LogicalOrdinal(op))
  {
    OperationNamesDistinct();
    var k := 10 + LogicalOrdinal(op);
    assert LOGICAL_OPERATORS[LogicalOrdinal(op)].1 == op;
    assert OperationNames()[k] == LogicalNames()[LogicalOrdinal(op)];
    IndexOfDistinct(OperationNames(), k);
  }

  /** Unary operators take indexes 18-21 and the conditional 22. */
  lemma UnaryOperationIndex(op: UnaryOp)
    ensures OperationIndex(UnaryName(op)) == Some(18 + UnaryOrdinal(op))
    ensures OperationIndex(CONDITIONAL_OPERATOR) == Some(22)
  {
    OperationNamesDistinct();
    var k := 18 + UnaryOrdinal(op);
    assert UNARY_OPERATORS[UnaryOrdinal(op)].1 == op;
    assert OperationNames()[k] == UnaryNames()[UnaryOrdinal(op)];
    IndexOfDistinct(OperationNames(), k);
    assert OperationNames()[22] == CONDITIONAL_OPERATOR;
    IndexOfDistinct(OperationNames(), 22);
  }

  /** Built-in functions take indexes 23-27. */
  lemma FunctionOperationIndex(f: BuiltInFunction)
    ensures OperationIndex(FunctionName(f)) == Some(23 + FunctionOrdinal(f))
  {
    OperationNamesDistinct();
    var k := 23 + FunctionOrdinal(f);
    assert BUILT_IN_FUNCTIONS[FunctionOrdinal(f)].0 == FunctionName(f);
    assert OperationNames()[k] == FunctionKeys()[FunctionOrdinal(f)];
    IndexOfDistinct(OperationNames(), k);
  }

  lemma IndexOfDistinct(names: seq<string>, k: nat)
    requires Distinct(names) && k < |names|
    ensures IndexOf(names, names[k]) == Some(k)
  {
    var r := IndexOf(names, names[k]);
    assert names[k] in names;
  }

  /**
   * `buildOperationIndexes`: numbers the binary, logical and unary operator
   * names, the conditional and the built-in functions consecutively from 0.
   */
  method BuildOperationIndexes() returns (indexes: map<string, nat>)
    ensures indexes.Keys == set name | name in OperationNames()
    ensures forall k :: 0 <= k < |OperationNames()| ==> indexes[OperationNames()[k]] == k
    ensures forall name :: name in indexes ==> OperationIndex(name) == Some(indexes[name])
  {
    OperationNamesDistinct();
    var names := OperationNames();
    NameBatches(BinaryNames(), LogicalNames(), UnaryNames(), [CONDITIONAL_OPERATOR], FunctionKeys());
    var next := 0;
    indexes := map[];
    indexes, next := NumberNames(indexes, next, names, BinaryNames());
    indexes, next := NumberNames(indexes, next, names, LogicalNames());
    indexes, next := NumberNames(indexes, next, names, UnaryNames());
    indexes, next := NumberNames(indexes, next, names, [CONDITIONAL_OPERATOR]);
    indexes, next := NumberNames(indexes, next, names, FunctionKeys());
    assert names[..next] == names;
    PositionsAreIndexes(indexes);
  }

  /** The five batches sit one after the other in their concatenation. */
  lemma NameBatches(a: seq<string>, b: seq<string>, c: seq<string>, d: seq<string>, e: seq<string>)
    ensures var all := a + b + c + d + e;
      && all[..|a|] == a
      && all[|a|..|a| + |b|] == b
      && all[|a| + |b|..|a| + |b| + |c|] == c
      && all[|a| + |b| + |c|..|a| + |b| + |c| + |d|] == d
      && all[|a| + |b| + |c| + |d|..|all|] == e
  {
  }

  /** A map giving every operation name its position agrees with `OperationIndex`. */
  lemma PositionsAreIndexes(indexes: map<string, nat>)
    requires indexes.Keys == set name | name in OperationNames()
    requires forall k :: 0 <= k < |OperationNames()| ==> indexes[OperationNames()[k]] == k
    ensures forall name :: name in indexes ==> OperationIndex(name) == Some(indexes[name])
  {
    var names := OperationNames();
    OperationNamesDistinct();
    forall name | name in indexes ensures OperationIndex(name) == Some(indexes[name]) {
      var k :| 0 <= k < |names| && names[k] == name;
      IndexOfDistinct(names, k);
    }
  }

  /** One loop of `buildOperationIndexes`: gives each of `batch` the next index, where `batch` continues `all`. */
  method NumberNames(indexes0: map<string, nat>, next0: nat, all: seq<string>, batch: seq<string>)
    returns (indexes: map<string, nat>, next: nat)
    requires Distinct(all) && next0 + |batch| <= |all| && all[next0..next0 + |batch|] == batch
    requires indexes0.Keys == set name | name in all[..next0]
    requires forall k :: 0 <= k < next0 ==> indexes0[all[k]] == k
    ensures next == next0 + |batch|
    ensures indexes.Keys == set name | name in all[..next]
    ensures forall k :: 0 <= k < next ==> indexes[all[k]] == k
  {
    indexes, next := indexes0, next0;
    var i := 0;
    while i < |batch|
      invariant 0 <= i <= |batch| && next == next0 + i
      invariant indexes.Keys == set name | name in all[..next]
      invariant forall k :: 0 <= k < next ==> indexes[all[k]] == k
    {
      assert batch[i] == all[next];
      assert all[..next + 1] == all[..next] + [all[next]];
      indexes := indexes[batch[i] := next];
      next := next + 1;
      i := i + 1;
    }
  }
}
