/**
 * The flow expression VM's instruction words: a 3-bit instruction type in
 * bits 13-15 and a 13-bit operand in bits 0-12.
 */
module Instructions {
  import opened Wrappers
  import JsInt

  const PUSH_CONSTANT: int := JsInt.ShiftLeft(0, 13)
  const PUSH_INPUT: int := JsInt.ShiftLeft(1, 13)
  const PUSH_LOCAL_VAR: int := JsInt.ShiftLeft(2, 13)
  const PUSH_GLOBAL_VAR: int := JsInt.ShiftLeft(3, 13)
  const PUSH_OUTPUT: int := JsInt.ShiftLeft(4, 13)
  const ARRAY_ELEMENT: int := JsInt.ShiftLeft(5, 13)
  const OPERATION: int := JsInt.ShiftLeft(6, 13)
  const END: int := JsInt.ShiftLeft(7, 13)

  /** One instruction, before it is packed into a word. */
  datatype Instr =
    | PushConstant(constantIndex: int)
    | PushInput(inputIndex: int)
    | PushLocalVar(localIndex: int)
    | PushGlobalVar(globalIndex: int)
    | PushOutput(outputIndex: int)
    | ArrayElement
    | Operation(operationIndex: int)
    | End

  /** The number in the top three bits. */
  function TypeNumber(i: Instr): (k: nat)
    ensures k < 8
  {
    match i
    case PushConstant(_) => 0
    case PushInput(_) => 1
    case PushLocalVar(_) => 2
    case PushGlobalVar(_) => 3
    case PushOutput(_) => 4
    case ArrayElement => 5
    case Operation(_) => 6
    case End => 7
  }

  function Operand(i: Instr): int
  {
    match i
    case PushConstant(n) => n
    case PushInput(n) => n
    case PushLocalVar(n) => n
    case PushGlobalVar(n) => n
    case PushOutput(n) => n
    case ArrayElement => 0
    case Operation(n) => n
    case End => 0
  }

  function TypeConstant(i: Instr): int
  {
    match i
    case PushConstant(_) => PUSH_CONSTANT
    case PushInput(_) => PUSH_INPUT
    case PushLocalVar(_) => PUSH_LOCAL_VAR
    case PushGlobalVar(_) => PUSH_GLOBAL_VAR
    case PushOutput(_) => PUSH_OUTPUT
    case ArrayElement => ARRAY_ELEMENT
    case Operation(_) => OPERATION
    case End => END
  }

  /** The `make*Instruction` encoders as written: the type constant OR-ed with the operand, with no range check. */
  function MakeWord(i: Instr): int
  {
    if i.ArrayElement? || i.End? then TypeConstant(i)
    else JsInt.Bitwise(JsInt.Or, TypeConstant(i), Operand(i))
  }

  /** The type constants are `k << 13` for k = 0..7, in declaration order. */
  lemma TypeConstants(i: Instr)
    ensures TypeConstant(i) == TypeNumber(i) * 8192
    ensures PUSH_CONSTANT == 0x0000 && PUSH_INPUT == 0x2000 && PUSH_LOCAL_VAR == 0x4000
    ensures PUSH_GLOBAL_VAR == 0x6000 && PUSH_OUTPUT == 0x8000 && ARRAY_ELEMENT == 0xA000
    ensures OPERATION == 0xC000 && END == 0xE000
  {
    ShiftedType(0);
    ShiftedType(1);
    ShiftedType(2);
    ShiftedType(3);
    ShiftedType(4);
    ShiftedType(5);
    ShiftedType(6);
    ShiftedType(7);
  }

  lemma ShiftedType(k: nat)
    requires k < 8
    ensures JsInt.ShiftLeft(k, 13) == k * 8192
  {
    JsInt.Pow2Values();
    assert JsInt.ToUint32(13) % 32 == 13;
    assert JsInt.ToUint32(k) == k;
    assert 0 <= k * 8192 < JsInt.TWO31;
  }

  /** How the VM reads a word back: `word >> 13` gives the type and `word & 0x1FFF` the operand. */
  function Decode(w: int): Option<Instr>
  {
    var k := JsInt.ShiftRight(w, 13);
    var n := JsInt.Bitwise(JsInt.And, w, 0x1FFF);
    if k == 0 then Some(PushConstant(n))
    else if k == 1 then Some(PushInput(n))
    else if k == 2 then Some(PushLocalVar(n))
    else if k == 3 then Some(PushGlobalVar(n))
    else if k == 4 then Some(PushOutput(n))
    else if k == 5 then Some(ArrayElement)
    else if k == 6 then Some(Operation(n))
    else if k == 7 then Some(End)
    else None
  }

  /** For an operand below 8192 the word fits 16 bits and its two fields read back as type and operand. */
  lemma WordFields(i: Instr)
    requires 0 <= Operand(i) < 8192
    ensures MakeWord(i) == TypeNumber(i) * 8192 + Operand(i)
    ensures 0 <= MakeWord(i) < 65536
    ensures JsInt.ShiftRight(MakeWord(i), 13) == TypeNumber(i)
    ensures JsInt.Bitwise(JsInt.And, MakeWord(i), 0x1FFF) == Operand(i)
  {
    WordValue(i);
    FieldsOf(MakeWord(i), TypeNumber(i), Operand(i));
  }

  lemma WordValue(i: Instr)
    requires 0 <= Operand(i) < 8192
    ensures MakeWord(i) == TypeNumber(i) * 8192 + Operand(i)
  {
    TypeConstants(i);
    var k, n := TypeNumber(i), Operand(i);
    if !(i.ArrayElement? || i.End?) {
      OrWord(k, n);
    }
  }

  /** OR-ing an operand below 8192 into a type constant adds it. */
  lemma OrWord(k: nat, n: int)
    requires k < 8 && 0 <= n < 8192
    ensures JsInt.Bitwise(JsInt.Or, k * 8192, n) == k * 8192 + n
  {
    JsInt.Pow2Values();
    JsInt.BitsOrShifted(k, n, 13, 19);
    assert JsInt.Pow2(13 + 19) == JsInt.TWO32;
    assert JsInt.ToUint32(k * 8192) == k * 8192 && JsInt.ToUint32(n) == n;
  }

  /** `w >> 13` and `w & 0x1FFF` of a 16-bit word. */
  lemma FieldsOf(w: int, k: nat, n: int)
    requires k < 8 && 0 <= n < 8192 && w == k * 8192 + n
    ensures 0 <= w < 65536
    ensures JsInt.ShiftRight(w, 13) == k
    ensures JsInt.Bitwise(JsInt.And, w, 0x1FFF) == n
  {
    JsInt.Pow2Values();
    JsInt.ModUnique(w, 8192, k, n);
    assert JsInt.ToUint32(13) % 32 == 13 && JsInt.ToInt32(w) == w;
    JsInt.BitsAndMask(w, 13, 32);
    assert JsInt.ToUint32(w) == w && JsInt.ToUint32(0x1FFF) == JsInt.Pow2(13) - 1;
  }

  /** ARRAY_ELEMENT and END carry operand 0. */
  lemma FixedWords()
    ensures MakeWord(ArrayElement) == 0xA000 && MakeWord(End) == 0xE000
  {
    TypeConstants(End);
  }

  lemma {:induction false} WordRoundTrip(i: Instr)
    requires 0 <= Operand(i) < 8192
    ensures Decode(MakeWord(i)) == Some(i)
  {
    WordFields(i);
    DecodeFields(MakeWord(i), i);
  }

  /** A word whose fields are an instruction's type and operand decodes to that instruction. */
  lemma DecodeFields(w: int, i: Instr)
    requires JsInt.ShiftRight(w, 13) == TypeNumber(i)
    requires JsInt.Bitwise(JsInt.And, w, 0x1FFF) == Operand(i)
    ensures Decode(w) == Some(i)
  {
  }

  /** As written, an operand of 8192 spills into the type bits: a constant-pool index aliases input 0. */
  lemma OverflowAliases()
    ensures MakeWord(PushConstant(8192)) == MakeWord(PushInput(0))
    ensures Decode(MakeWord(PushConstant(8192))) == Some(PushInput(0))
  {
    WordFields(PushInput(0));
    WordRoundTrip(PushInput(0));
    TypeConstants(PushConstant(8192));
    JsInt.Pow2Values();
    JsInt.BitsOrShifted(0, 8192, 32, 0);
    assert JsInt.Pow2(32 + 0) == JsInt.TWO32;
  }

  datatype EncodeError = OperandOutOfRange(operand: int)

  /** The encoder with the range check the 13-bit operand field needs. */
  function Encode(i: Instr): (r: Result<int, EncodeError>)
    ensures r.Ok? <==> 0 <= Operand(i) < 8192
  {
    if 0 <= Operand(i) < 8192 then Ok(MakeWord(i)) else Err(OperandOutOfRange(Operand(i)))
  }

  /** Every word the checked encoder produces is a 16-bit word that decodes to the instruction. */
  lemma EncodeRoundTrip(i: Instr)
    ensures Encode(i).Ok? ==> 0 <= Encode(i).value < 65536 && Decode(Encode(i).value) == Some(i)
  {
    if Encode(i).Ok? {
      WordFields(i);
      WordRoundTrip(i);
    }
  }

  /** Two instructions the checked encoder accepts never share a word. */
  lemma EncodeInjective(a: Instr, b: Instr)
    requires Encode(a).Ok? && Encode(b).Ok? && Encode(a).value == Encode(b).value
    ensures a == b
  {
    EncodeRoundTrip(a);
    EncodeRoundTrip(b);
  }
}
