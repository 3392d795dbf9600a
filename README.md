# A verified model of the EEZ Studio project editor's core

EEZ Studio is a desktop application for designing instrument front panels and
dashboards as flows: components on a page, wired together, whose properties
are small expressions. The project editor type-checks each expression,
compiles it to 16-bit words for the instrument's expression virtual machine,
and evaluates it at build time and inside the editor. This project models
that expression compiler together with the smaller pieces of
logic around it, and proves properties of each.

| Dafny module (file) | what it models |
|---|---|
| `Instructions` (instructions.dfy) | the instruction word: a 3-bit type over a 13-bit operand, its encoders, and decoding |
| `Operations` (operations.dfy) | the operator and built-in function tables, their result-type rules, and the operation index table |
| `Expressions` (expression.dfy) | the expression tree, the scope, and type inference (`findValueTypeInExpressionNode`) |
| `Checker` (checker.dfy) | the semantic check (`checkExpression`, `checkExpressionNode`) |
| `Lowering` (lowering.dfy) | post-order lowering to instructions (`buildExpressionNode`, `buildExpression`, `buildAssignableExpression`) and a stack machine that gives the code its meaning |
| `Evaluation` (evaluator.dfy) | the build-time and the editor evaluators and their entry points |
| `Variables`, `DataContexts`, `JsValues` (variables.dfy, datacontext.dfy, values.dfy) | type-name helpers, legacy type migration, the enum/struct/member lookup maps, and the chained `DataContext` store |
| `VariableBuild`, `BitmapsBuild`, `CodeGen` (varbuild.dfy, bitmaps.dfy, codegen.dfy) | the C source text and records the build emits for variables and bitmaps |
| `Styles` (style.dfy) | `getRect`, style inheritance, the padding migration, and the style `check` rules |
| `Util`, `Installer` (util.dfy, installer.dfy) | number formatting, `clamp`, version and keybinding comparison, and the installer's extension selection |
| `Flows` (flow.dfy) | copying, pasting and rewiring flow fragments, and deleting and rerouting connection lines |
| `Search` (search.dfy) | the project tree visitors, the search and reference match rules, and reference replacement |
| `Draw` (draw.dfy) | the RGBA pixel buffer primitives, text measuring, and integer text layout |
| `Plotly` (plotly.dfy) | the chart update table and queue, the new-plot queue, and the line chart's sample buffer |
| `Serial` (serial.dfy) | the serial connection's pending-data buffer, drained in chunks of at most 64 characters |
| `Wrappers`, `Strings`, `Sorting`, `JsInt` | Option/Result, JavaScript string helpers, string ordering, and 32-bit integer operations |

Where the source mutates state, the model does too: `DataContext`,
`DataBuffer`, `ImageBuffer`, the chart table, `SerialInterface`, `Flow` and
`FlowFragment` are classes. Their methods update fields and are proved against
specification functions. The recursive passes over expressions are
functions. Several places where the code evidently does not do what its
authors meant are modelled twice, selected by a `Mode` parameter:
`AsWritten` follows the code and `Corrected` follows the evident intent (see
"## Findings"). The rest of the model uses the code's behaviour except where
a row says otherwise.

## Model

| member | source | states |
|---|---|---|
| JsInt.ToUint32 | packages/project-editor/flow/expression/operations.ts:122-191 | the operands of JavaScript's shift and bitwise operators are taken modulo 2^32; values already in range are unchanged |
| JsInt.ToInt32 | packages/project-editor/flow/expression/operations.ts:122-191 | the results of the bitwise operators are 32-bit two's-complement numbers with the same residue modulo 2^32; in-range values are unchanged |
| JsInt.BitNot | packages/project-editor/flow/expression/operations.ts:301-303 | `~a` is a 32-bit signed number |
| JsInt.BitsOrShifted | packages/project-editor/flow/expression/instructions.ts:17-45 | OR-ing a value below 2^m into a multiple of 2^m adds it, and the sum stays below 2^(m+n) |
| JsInt.BitsAndMask | packages/project-editor/flow/expression/instructions.ts:3-10 | AND-ing with 2^m - 1 keeps exactly the low m bits, that is the value modulo 2^m |
| JsInt.LowIsMod | packages/project-editor/flow/expression/instructions.ts:3-10 | the low m bits of a value, taken bit by bit, are the value modulo 2^m |
| JsInt.AndLowByte | packages/project-editor/flow/draw.ts:424 | `x & 0xff` is the low byte of `x` modulo 256, also for negative `x` |
| Instructions.TypeConstants | packages/project-editor/flow/expression/instructions.ts:3-10 | the eight instruction-type constants are k << 13 for k = 0..7, that is 0x0000, 0x2000, … 0xE000 in declaration order |
| Instructions.WordFields | packages/project-editor/flow/expression/instructions.ts:12-45 | for an operand below 8192 the word is type·8192 + operand, fits 16 bits, and `>> 13` and `& 0x1FFF` give back the type and the operand |
| Instructions.FixedWords | packages/project-editor/flow/expression/instructions.ts:39-49 | the array-element and end instructions are the words 0xA000 and 0xE000 |
| Instructions.WordRoundTrip | packages/project-editor/flow/expression/instructions.ts:12-49 | an instruction whose operand fits 13 bits decodes back from its word |
| Instructions.OverflowAliases | packages/project-editor/flow/expression/instructions.ts:17-25 | as written, pushing constant 8192 gives the same word as pushing input 0, and that word decodes as the input push |
| Instructions.Encode | packages/project-editor/flow/expression/instructions.ts:12-49 | the range-checked encoder succeeds exactly when the operand is in [0, 8192) |
| Instructions.EncodeRoundTrip | packages/project-editor/flow/expression/instructions.ts:12-49 | every word the checked encoder produces is a 16-bit word that decodes to the instruction it encodes |
| Instructions.EncodeInjective | packages/project-editor/flow/expression/instructions.ts:12-49 | two instructions the checked encoder accepts never share a word |
| Operations.Lookup | packages/project-editor/flow/expression/operations.ts:4-14 | an operator table lookup finds an entry exactly when some entry has that key, and then returns an entry stored under the key |
| Operations.AddTypeIsMaximum | packages/project-editor/flow/expression/operations.ts:15-47 | `+` yields the higher of its operand types on the ladder integer < float < double < string, and "undefined" unless both are on it |
| Operations.ArithmeticTypeIsMaximum | packages/project-editor/flow/expression/operations.ts:48-107 | `-`, `*` and `/` yield the higher of two numeric operand types, and "undefined" for any non-numeric operand, string included |
| Operations.IntegerOperatorType | packages/project-editor/flow/expression/operations.ts:108-191 | `%`, `<<`, `>>`, `&`, `\|` and `^` yield "integer" exactly when both operands are integer, otherwise "undefined" |
| Operations.BinaryTypeOnLadder | packages/project-editor/flow/expression/operations.ts:4-192 | every binary operator's result type is "undefined" or on the ladder, and only `+` with a string operand yields "string" |
| Operations.UnaryTypeRules | packages/project-editor/flow/expression/operations.ts:280-321 | a unary result is defined exactly when the operand is numeric (integer only for `~`); `+`, `-` and `~` keep the operand type and `!` gives "boolean" |
| Operations.FunctionTypeRules | packages/project-editor/flow/expression/operations.ts:334-424 | Flow.it is integer; Math.sin, Math.cos and Math.log keep float and give double for the other numeric types; String.find is undefined exactly when neither argument is a string |
| Operations.BinaryEval | packages/project-editor/flow/expression/operations.ts:4-191 | the `eval` entries of the binary operator table, on integers; Operations.BinaryEvalOnNumbers and Operations.BinaryEvalNeedsNumbers state when each gives a number |
| Operations.BinaryEvalOnNumbers | packages/project-editor/flow/expression/operations.ts:48-191 | on two numbers `-`, `*`, the shifts and the bitwise operators give a number, the latter 32-bit signed; `/` gives one exactly when the division is exact and undoes the multiplication; `%` gives one unless the divisor is 0 |
| Operations.BinaryEvalNeedsNumbers | packages/project-editor/flow/expression/operations.ts:48-191 | every binary operator but `+` gives a modelled result only on two numbers |
| Operations.TruncatedRemainder | packages/project-editor/flow/expression/operations.ts:108-111 | JavaScript's `%` on integers: the remainder has the dividend's sign, is smaller than the divisor in magnitude, and completes the truncated division |
| Operations.LogicalEval | packages/project-editor/flow/expression/operations.ts:193-269 | the `eval` entries of the logical operator table; Operations.ShortCircuitOperands states `&&` and `\|\|`, and JsValues.LooseEquals the equalities |
| Operations.ShortCircuitOperands | packages/project-editor/flow/expression/operations.ts:253-268 | `&&` and `\|\|` return one of their operands, chosen by the first one's truthiness, and the result's truthiness is the conjunction or disjunction |
| Operations.UnaryEval | packages/project-editor/flow/expression/operations.ts:271-321 | the `eval` entries of the unary operator table, coercing booleans and null; Operations.OneComplementInvolution states `~~x == x` |
| Operations.OneComplementInvolution | packages/project-editor/flow/expression/operations.ts:301-303 | `~~x == x` for every 32-bit integer |
| Operations.FunctionEval | packages/project-editor/flow/expression/operations.ts:335-345 | Flow.it gives `$it` of the expression context, or 0 without a context; the floating-point functions are not computed |
| Operations.BuiltInConstant | packages/project-editor/flow/expression/operations.ts:426-436 | the only built-in constant is Math.PI |
| Operations.OperationNamesValue | packages/project-editor/flow/expression/operations.ts:438-469 | the names are numbered in the order binary, logical, unary operator names, "conditional", built-in function names: 28 names, listed out |
| Operations.OperationNamesDistinct | packages/project-editor/flow/expression/operations.ts:438-469 | the 28 operation names are pairwise distinct, so no index is overwritten |
| Operations.BinaryOperationIndex | packages/project-editor/flow/expression/operations.ts:443-447 | binary operators get operation indexes 0-9 in table order |
| Operations.LogicalOperationIndex | packages/project-editor/flow/expression/operations.ts:449-454 | logical operators get operation indexes 10-17 in table order |
| Operations.UnaryOperationIndex | packages/project-editor/flow/expression/operations.ts:456-462 | unary operators get operation indexes 18-21 and the conditional gets 22 |
| Operations.FunctionOperationIndex | packages/project-editor/flow/expression/operations.ts:464-468 | built-in functions get operation indexes 23-27 in table order |
| Operations.BuildOperationIndexes | packages/project-editor/flow/expression/operations.ts:438-471 | the table has exactly the 28 operation names as keys, numbers them consecutively from 0, and agrees with the index lookup the lowering uses |
| Operations.NumberNames | packages/project-editor/flow/expression/operations.ts:443-468 | one numbering loop gives each name of its batch the next index and keeps every earlier name's index |
| Expressions.Parse | packages/project-editor/flow/expression/expression.ts:49-66 | a parse result passes through, and a parse error is rethrown prefixed with "Expression error: " |
| Expressions.ResolveCallOk | packages/project-editor/flow/expression/expression.ts:389-410 | a call resolves exactly when its callee is `Identifier.Identifier` naming a built-in function whose arity is the number of arguments, and then resolves to that function |
| Expressions.FindNamed | packages/project-editor/flow/expression/expression.ts:310-341 | `find` by name returns an item with that name, and nothing only when no item has it |
| Expressions.FindIndex | packages/project-editor/flow/expression/expression.ts:310-341 | `findIndex` by name returns the first position holding the name, and -1 only when none does |
| Expressions.InferAll | packages/project-editor/flow/expression/expression.ts:412-414 | inference over a list of nodes types each node, in order |
| Expressions.InferProperties | packages/project-editor/flow/expression/expression.ts:477-481 | inference over an object's properties keeps their keys and order |
| Expressions.Types | packages/project-editor/flow/expression/expression.ts:412-416 | one type per argument |
| Expressions.Infer | packages/project-editor/flow/expression/expression.ts:291-485 | `findValueTypeInExpressionNode` as a definition: the annotated tree or the thrown message; Expressions.InferKeepsShape, Expressions.InferIdempotent and the per-node typing lemmas state its rules |
| Expressions.InferKeepsShape | packages/project-editor/flow/expression/expression.ts:291-485 | inference only fills in types: the annotated tree has the shape of the input |
| Expressions.InferAllKeepsShape | packages/project-editor/flow/expression/expression.ts:412-414 | the same, for a list of nodes |
| Expressions.InferPropertiesKeepShape | packages/project-editor/flow/expression/expression.ts:477-481 | the same, for an object's properties |
| Expressions.InferIdempotent | packages/project-editor/flow/expression/expression.ts:291-485 | running inference again on its own output changes nothing |
| Expressions.InferAllIdempotent | packages/project-editor/flow/expression/expression.ts:412-414 | the same, for a list of nodes |
| Expressions.InferPropertiesIdempotent | packages/project-editor/flow/expression/expression.ts:477-481 | the same, for an object's properties |
| Expressions.LiteralTyping | packages/project-editor/flow/expression/expression.ts:298-307 | a literal is typed "boolean", "double" for numbers, "string", and "undefined" for anything else |
| Expressions.IdentifierResolution | packages/project-editor/flow/expression/expression.ts:308-349 | an identifier is a port first (an output when assignable, an input otherwise, typed "any"), then a local of the flow, then a global, then an enum name typed `enum:name`; any other name throws its message |
| Expressions.EnumNameKnown | packages/project-editor/flow/expression/expression.ts:343-349 | a name is in the enum table exactly when some enum of the project has it |
| Expressions.ConditionalTyping | packages/project-editor/flow/expression/expression.ts:382-388 | a conditional types only its branches; it succeeds exactly when both succeed with equal types, and then takes that type |
| Expressions.CallTyping | packages/project-editor/flow/expression/expression.ts:389-417 | a call is typed only when its callee is `Identifier.Identifier` naming a built-in of that arity, and its type is the built-in's rule on the argument types |
| Expressions.BinaryTyping | packages/project-editor/flow/expression/expression.ts:350-374 | a binary or logical expression takes its operator's rule: the binary table first, then the logical one, whose rules all give "boolean" |
| Expressions.MemberTyping | packages/project-editor/flow/expression/expression.ts:418-471 | on an enum-typed object the member must exist and is "integer"; a computed member needs an `array:T` object and has type T; otherwise the member is looked up in the structure the type names (the name after "struct:", or the whole type), and it succeeds exactly when that structure exists, the member is an identifier and the structure has that field, whose type it then has; Expressions.MemberTypingErrors states the messages of the failures |
| Expressions.MemberTypingErrors | packages/project-editor/flow/expression/expression.ts:418-471 | each failure throws its own message: an enum member that is not an identifier or not in the enum, a computed member of a non-array type, a type naming no structure, a field that is not an identifier, and a missing field ("Struc field not found", as spelled) |
| Expressions.MemberOfUntyped | packages/project-editor/flow/expression/expression.ts:418-471 | a member of an object whose type is unset throws, as reading `match` of undefined does |
| Checker.Check | packages/project-editor/flow/expression/expression.ts:487-627 | `checkExpressionNode` as a definition, in both readings (as written and corrected); Checker.IdentifierCheck, Checker.MemberCheck, Checker.CorrectedOperatorCheck and Checker.AsWrittenRejectsOperators state what it accepts |
| Checker.CheckExpression | packages/project-editor/flow/expression/expression.ts:49-66 | an undefined or numeric expression always passes; a text passes exactly when it parses, its types infer and every node of the annotated tree passes the node check |
| Checker.AsWrittenRejectsOperators | packages/project-editor/flow/expression/expression.ts:520-627 | as written, every binary, logical, unary, conditional and call node is rejected; whenever the intended check accepts such a node, the rejection is the unknown-node message the check falls through to |
| Checker.ChildFallsThrough | packages/project-editor/flow/expression/expression.ts:487-627 | a node the intended check accepts either passes the written check or fails it only with a fall-through message |
| Checker.CheckAllFallsThrough | packages/project-editor/flow/expression/expression.ts:576-580 | a list of call arguments the intended check accepts passes the written check or fails only with a fall-through message |
| Checker.ModesAgreeOffOperators | packages/project-editor/flow/expression/expression.ts:489-627 | on literals, identifiers and member accesses the written and the intended checks give the same result |
| Checker.CheckAllEach | packages/project-editor/flow/expression/expression.ts:580 | the arguments of a call pass exactly when each argument passes |
| Checker.CorrectedOperatorCheck | packages/project-editor/flow/expression/expression.ts:520-581 | the intended check accepts a binary node exactly when its operator is a binary or logical operator and both operands pass, a logical or unary node when its operator is registered and its operands pass, a conditional when all three parts pass, and a call exactly when its callee is `Identifier.Identifier` naming a built-in of that arity and every argument passes |
| Checker.IdentifierCheck | packages/project-editor/flow/expression/expression.ts:493-518 | an identifier passes exactly when it names a component input, a flow local variable or a global variable |
| Checker.DeclaredNames | packages/project-editor/flow/expression/expression.ts:494-515 | a name counts as declared exactly when some input, flow local or global variable carries it |
| Checker.MemberCheck | packages/project-editor/flow/expression/expression.ts:583-611 | `Enum.Member` on a known enum passes exactly when the enum has the member; on a name that is no enum it passes exactly when the dotted name is a built-in constant |
| Checker.StructFieldRejected | packages/project-editor/flow/expression/expression.ts:583-611 | as written, `s.x` on a declared variable `s` that names no enum is rejected as an unknown constant, whatever the variable's type, unless it reads `Math.PI` |
| Checker.MemberOfOtherShapePasses | packages/project-editor/flow/expression/expression.ts:613-614 | a member access whose object or property is not an identifier passes without its parts being checked |
| Lowering.FieldNames | packages/project-editor/flow/expression/expression.ts:841-842 | the field names of a structure, one per field, in declaration order |
| Lowering.WordsOf | packages/project-editor/flow/expression/instructions.ts:3-48 | each instruction becomes the word its maker builds, one word per instruction; as written every operand is accepted, the corrected encoding fails exactly when some operand does not fit the 13-bit field |
| Lowering.CorrectedWordsDecode | packages/project-editor/flow/expression/instructions.ts:3-48 | every word of the corrected encoding is a 16-bit value that decodes back to its instruction |
| Lowering.DataBuffer.constructor | packages/project-editor/flow/expression/expression.ts:70 | a new buffer holds no words |
| Lowering.DataBuffer.WriteUint16 | packages/project-editor/flow/expression/expression.ts:96 | a write appends the word's low 16 bits, in two's complement for a negative word, as the 16-bit write keeps them |
| Lowering.Low16 | packages/project-editor/flow/expression/expression.ts:96 | the kept word is within 16 bits, equals the word when it already fits, and agrees with it modulo 65536 |
| Lowering.StoredFitting | packages/project-editor/flow/expression/expression.ts:95-97 | words that already fit 16 bits are written unchanged |
| Lowering.DataBuffer.WriteAll | packages/project-editor/flow/expression/expression.ts:95-97 | writing a code sequence appends the low 16 bits of each of its words, in order, and nothing else |
| Lowering.BuildExpression | packages/project-editor/flow/expression/expression.ts:68-98 | `buildExpression` before encoding: an absent or empty expression pushes undefined, a number its literal, a text its parsed, typed and lowered code; Lowering.BuildExpressionShape and Lowering.ConstantSourceLowering state its shape |
| Lowering.DataBuffer.EmitExpression | packages/project-editor/flow/expression/expression.ts:68-98 | `buildExpression`: when lowering throws, the error is reported and the buffer is unchanged; otherwise the buffer gains the low 16 bits of each word of the lowered code, and with the corrected encoding exactly those words |
| Lowering.BuildAssignableExpression | packages/project-editor/flow/expression/expression.ts:100-143 | `buildAssignableExpression` before encoding: parse, infer as assignable, reject what cannot be assigned, lower; Lowering.AssignableLowering and Lowering.AssignableShape state its outcome |
| Lowering.DataBuffer.EmitAssignableExpression | packages/project-editor/flow/expression/expression.ts:100-143 | `buildAssignableExpression`: when lowering throws, the error is reported and the buffer is unchanged; otherwise the buffer gains the low 16 bits of each word of the lowered code, and with the corrected encoding exactly those words |
| Lowering.IdentifierLowering | packages/project-editor/flow/expression/expression.ts:645-681 | an identifier lowers to one push: the first output of that name when assigning, the component input when reading, otherwise the first flow local, otherwise the first global variable; it fails exactly when there is none |
| Lowering.Build | packages/project-editor/flow/expression/expression.ts:635-870 | `buildExpressionNode` as a definition: the instruction list or the thrown message; Lowering.BuildStackEffect and the per-node lowering lemmas state what it emits |
| Lowering.BuildAllEach | packages/project-editor/flow/expression/expression.ts:771-778 | a list of arguments lowers exactly when each argument does, and its code is their codes concatenated in order |
| Lowering.BuildAllIsCollect | packages/project-editor/flow/expression/expression.ts:772-778 | lowering the argument list is collecting its elements' lowerings |
| Lowering.CollectEach | packages/project-editor/flow/expression/expression.ts:772-778 | collecting succeeds exactly when every element's code does, and then concatenates them |
| Lowering.BinaryIndex | packages/project-editor/flow/expression/expression.ts:685-696 | a BinaryExpression's operator gets operation index 0-9 from the binary table or 10-17 from the logical one |
| Lowering.BinaryIndexIsOperationIndex | packages/project-editor/flow/expression/expression.ts:696 | the index chosen for a BinaryExpression is the operation index of the operator's name |
| Lowering.BinaryLowering | packages/project-editor/flow/expression/expression.ts:684-698 | a lowered BinaryExpression has a registered operator and is the left code, the right code and the operation |
| Lowering.LogicalLowering | packages/project-editor/flow/expression/expression.ts:700-711 | a lowered LogicalExpression is the left code, the right code and a logical operation: both operands are evaluated, with no short circuit |
| Lowering.UnaryLowering | packages/project-editor/flow/expression/expression.ts:713-728 | a lowered UnaryExpression is the operand's code followed by its operation |
| Lowering.ConditionalLowering | packages/project-editor/flow/expression/expression.ts:730-747 | a lowered conditional is the test, the consequent and the alternate code, then the conditional operation |
| Lowering.CallLowering | packages/project-editor/flow/expression/expression.ts:749-781 | a lowered call names a built-in of that arity and is each argument's code in order followed by the function's operation |
| Lowering.EnumMemberLowering | packages/project-editor/flow/expression/expression.ts:788-802 | `Enum.Member` lowers to one integer-constant push of the member's value, the last member of that name winning |
| Lowering.StructFieldLowering | packages/project-editor/flow/expression/expression.ts:835-855 | a field access lowers to the object's code, a push of the field's position among the sorted field names (-1 for a name that is no field) and ARRAY_ELEMENT |
| Lowering.MemberCodeShape | packages/project-editor/flow/expression/expression.ts:783-857 | a member access lowers to one constant push, or object code, property code and ARRAY_ELEMENT when computed, or object code, one constant push and ARRAY_ELEMENT |
| Lowering.RunHasNoEnd | packages/project-editor/flow/expression/instructions.ts:10 | code that runs to completion on the stack machine holds no END |
| Lowering.RunConcat | packages/project-editor/flow/expression/expression.ts:693-697 | running two pieces of code one after the other is running their concatenation |
| Lowering.BuildStackEffect | packages/project-editor/flow/expression/expression.ts:635-870 | lowered code never pops an empty stack and leaves exactly one more value than it found |
| Lowering.BuildAllStackEffect | packages/project-editor/flow/expression/expression.ts:772-778 | lowered arguments leave one value each |
| Lowering.EraseKeepsKinds | packages/project-editor/flow/expression/expression.ts:291-485 | clearing the type annotations changes neither the node kinds nor assignability |
| Lowering.InferKeepsKinds | packages/project-editor/flow/expression/expression.ts:291-485 | the tree inference annotates has the parsed tree's node kinds and assignability |
| Lowering.BuildExpressionShape | packages/project-editor/flow/expression/expression.ts:68-98 | the code `buildExpression` emits ends in END, holds no other END and leaves exactly one value on an empty stack |
| Lowering.ConstantSourceLowering | packages/project-editor/flow/expression/expression.ts:75-81 | an absent or empty expression lowers as the literal `undefined` and a number as its own literal, each followed by END |
| Lowering.AssignableLowering | packages/project-editor/flow/expression/expression.ts:106-134 | once parsing and inference succeed, an expression that is not an identifier, a member access or a conditional of assignable branches is refused with "Expression is not assignable"; whatever lowers is assignable |
| Lowering.AssignableShape | packages/project-editor/flow/expression/expression.ts:136-142 | the code `buildAssignableExpression` emits ends in END, holds no other END and leaves one value |
| Lowering.CallErrorEverywhere | packages/project-editor/flow/expression/expression.ts:749-770 | a call with an unknown callee or the wrong argument count fails with the same message in inference, in both checking readings and in lowering |
| Evaluation.Computed | packages/project-editor/flow/expression/expression.ts:894-898 | a value the operator catalog computes is returned, and only where the catalog gives none is the result "not modelled" |
| Evaluation.EvalConstantAll | packages/project-editor/flow/expression/expression.ts:951-954 | at build time the arguments evaluate to one value each, left to right |
| Evaluation.EvalInAll | packages/project-editor/flow/expression/expression.ts:1108-1111 | in the editor the arguments evaluate to one value each, left to right |
| Evaluation.Caught | packages/project-editor/flow/expression/expression.ts:159-164 | a throw during evaluation becomes null, and nothing but a throw is caught |
| Evaluation.EvalIn | packages/project-editor/flow/expression/expression.ts:1009-1168 | `evalExpressionWithContext` as a definition over a data context and flow state; Evaluation.ConditionalPicksBranch, Evaluation.OperandsEvaluatedEagerly, Evaluation.IdentifierReadsStore and Evaluation.EvalIgnoresTypes state its behaviour |
| Evaluation.ConditionalPicksBranch | packages/project-editor/flow/expression/expression.ts:1080-1084 | a throw in the test propagates; otherwise the result is the branch the test's truthiness picks, and the other branch has no influence, not even through its throws |
| Evaluation.ConditionalUnfolds | packages/project-editor/flow/expression/expression.ts:1080-1084 | a conditional's value is the conditional step applied to the values of its test and branches |
| Evaluation.EvalConstant | packages/project-editor/flow/expression/expression.ts:872-1007 | `evalConstantExpressionNode` as a definition: the value, a throw, or not modelled; Evaluation.EvaluatorsAgree and Evaluation.ConstantConditionalPicksBranch state its behaviour |
| Evaluation.ConstantConditionalPicksBranch | packages/project-editor/flow/expression/expression.ts:923-927 | at build time, too, only the picked branch influences a conditional |
| Evaluation.StepPicksBranch | packages/project-editor/flow/expression/expression.ts:924-926 | the conditional step returns a failed test, else the consequent when the test is truthy and the alternate otherwise, ignoring the other branch |
| Evaluation.OperandsEvaluatedEagerly | packages/project-editor/flow/expression/expression.ts:1058-1069 | both operands of a logical node are evaluated, left first, before the operator applies, so a throw in the right operand surfaces whatever the left one is |
| Evaluation.LeftOperandFirst | packages/project-editor/flow/expression/expression.ts:1042-1056 | in both evaluators a throw in the left operand of a binary node wins over anything in the right one |
| Evaluation.EvaluatorsAgree | packages/project-editor/flow/expression/expression.ts:872-1168 | on expressions that read no data the build-time and the editor evaluator give the same outcome, throws included |
| Evaluation.EvaluatorsAgreeAll | packages/project-editor/flow/expression/expression.ts:951-954 | the two evaluators agree on a list of argument expressions that read no data |
| Evaluation.ConstantFoldingMatchesLowering | packages/project-editor/flow/expression/expression.ts:962-980 | with the corrected reading both evaluators give an enum member or built-in constant the value lowering pushes, and a missing enum member throws the message lowering throws |
| Evaluation.ConstantRecordFinding | packages/project-editor/flow/expression/expression.ts:975-980 | as written both constant evaluators return the whole `{ value, valueType }` record of `Math.PI` rather than its value |
| Evaluation.MathUndeclaredRejected | packages/project-editor/flow/expression/expression.ts:176-210 | when nothing in the flow or project is named `Math`, inference throws on `Math.PI`, so building it fails and evaluating it as a non-constant expression gives null |
| Evaluation.MathUnresolved | packages/project-editor/flow/expression/expression.ts:308-349 | the identifier `Math` throws in inference when no input port, local, global or enum has that name |
| Evaluation.MemberOfUnresolved | packages/project-editor/flow/expression/expression.ts:418-421 | a member access whose object throws in inference throws the same error |
| Evaluation.UninferredNotBuilt | packages/project-editor/flow/expression/expression.ts:68-91 | `buildExpression` throws inference's error for a parsed expression that inference rejects |
| Evaluation.UninferredIsNull | packages/project-editor/flow/expression/expression.ts:176-210 | `evalExpression` gives null for a parsed expression that inference rejects |
| Evaluation.IdentifierReadsStore | packages/project-editor/flow/expression/expression.ts:1039 | a variable just stored through the data context is what an identifier of that name evaluates to, unless a component input shadows it |
| Evaluation.InputShadowsVariables | packages/project-editor/flow/expression/expression.ts:1020-1037 | an identifier naming a component input reads the flow state, whatever the data context holds, and throws without a flow state |
| Evaluation.EvalConstantExpression | packages/project-editor/flow/expression/expression.ts:145-168 | `evalConstantExpression`: the entry point over the build-time evaluator, with throws caught as null; Evaluation.ConstantEntryPoint states its outcomes |
| Evaluation.ConstantEntryPoint | packages/project-editor/flow/expression/expression.ts:145-168 | `evalConstantExpression`: undefined and a number are their own values; it throws exactly on a parse error, with the prefixed message; otherwise a throw during evaluation becomes null |
| Evaluation.EvalExpression | packages/project-editor/flow/expression/expression.ts:176-210 | `evalExpression`: inference, then the editor evaluator, with throws caught the same way; Evaluation.ContextEntryPoint states its outcomes |
| Evaluation.ContextEntryPoint | packages/project-editor/flow/expression/expression.ts:176-210 | `evalExpression`: undefined and a number are their own values; it throws exactly on a parse error; a throw from inference or evaluation becomes null; the value is that of the parsed tree |
| Evaluation.EvalIgnoresTypes | packages/project-editor/flow/expression/expression.ts:1009-1168 | evaluation never reads the `valueType` annotations inference writes |
| Evaluation.EvalIgnoresTypesAll | packages/project-editor/flow/expression/expression.ts:1110 | evaluating a list of arguments never reads their annotations |
| Variables.FirstLine | packages/project-editor/features/variable/variable.tsx:377-379 | what the regular expression's `(.*)` captures is a prefix of the text, holds no line terminator, and stops only at one |
| Variables.TypeTestsAgree | packages/project-editor/features/variable/variable.tsx:385-419 | each `is*Type` test holds exactly when the matching getter finds a name |
| Variables.TypeNameRoundTrip | packages/project-editor/features/variable/variable.tsx:397-419 | a name without line terminators comes back from its `enum:`, `struct:` or `array:` type string |
| Variables.FirstLineWhole | packages/project-editor/features/variable/variable.tsx:377-379 | a text without line terminators is captured whole |
| Variables.TypeKindsExclusive | packages/project-editor/features/variable/variable.tsx:377-395 | no type string is two of enum, struct and array |
| Variables.MigrateType | packages/project-editor/features/variable/variable.tsx:253-263 | a legacy "list" type becomes "array"; a legacy "struct" or "enum" type takes its name from the `structure` or `enum` field, which is deleted; any other type is left alone |
| Variables.MigratedTypeNames | packages/project-editor/features/variable/variable.tsx:253-263 | a migrated struct or enum type is recognised as such, names its structure or enum through the getters, and is not an array type |
| Variables.ByNameLastWins | packages/project-editor/features/variable/variable.tsx:1041-1047 | a name-keyed table binds each name to its last occurrence |
| Variables.ByNameKeys | packages/project-editor/features/variable/variable.tsx:1041-1047 | the table's keys are exactly the names that occur |
| Variables.IndexByName | packages/project-editor/features/variable/variable.tsx:1041-1047 | the loop builds exactly that table |
| Variables.EnumsMap | packages/project-editor/features/variable/variable.tsx:1107-1113 | `enumsMap` has every enum's name as a key and binds each key to an enum with that name |
| Variables.StructsMap | packages/project-editor/features/variable/variable.tsx:1115-1121 | `structsMap` has every structure's name as a key and binds each key to a structure with that name |
| Variables.MembersMap | packages/project-editor/features/variable/variable.tsx:1041-1047 | `membersMap` has every member's name as a key and binds each key to a member with that name |
| Variables.ByNameFacts | packages/project-editor/features/variable/variable.tsx:1041-1047 | every item's name is a key, and every key is bound to an item carrying it |
| JsValues.LooseEquals | packages/project-editor/flow/expression/operations.ts:205-211 | `==` is true for equal primitives, and undefined or null equals only undefined or null |
| JsValues.StringLessIrreflexive | packages/project-editor/flow/expression/expression.ts:841-844 | the string order of the default sort is irreflexive |
| JsValues.StringLessAsymmetric | packages/project-editor/flow/expression/expression.ts:841-844 | it is asymmetric |
| JsValues.StringLessTotal | packages/project-editor/flow/expression/expression.ts:841-844 | two different strings are ordered one way or the other (character by character, which is the code-unit order for strings in the Basic Multilingual Plane) |
| JsValues.StringLessTransitive | packages/project-editor/flow/expression/expression.ts:841-844 | it is transitive |
| JsValues.IndexKeysAgree | packages/project-editor/flow/expression/expression.ts:1140-1147 | an array index and its decimal text select the same element |
| JsValues.IndexText | packages/project-editor/flow/expression/expression.ts:1140-1147 | the decimal text of a natural number is its canonical index, and not `length` |
| JsValues.IndexedKeysAgree | packages/project-editor/flow/expression/expression.ts:1140-1147 | a canonical index key and its number select the same element of an array-like value |
| JsValues.TemplateText | packages/project-editor/features/variable/variable.tsx:256-261 | a string interpolates as itself, and the text of every value but arrays, objects and non-integral numbers is computed |
| JsValues.JsObject.constructor | packages/project-editor/features/variable/variable.tsx:253-263 | a plain object starts with the given fields |
| Sorting.Insert | packages/project-editor/flow/expression/expression.ts:841-844 | inserting into a sorted list keeps it sorted and adds exactly the one name |
| Sorting.InsertFront | packages/project-editor/flow/expression/expression.ts:841-844 | a name not after the head of a sorted list can go in front |
| Sorting.InsertAfter | packages/project-editor/flow/expression/expression.ts:841-844 | a name after the head goes into the tail, keeping the list sorted |
| Sorting.Sort | packages/project-editor/flow/expression/expression.ts:841-844 | `sort()` gives a sorted permutation of the field names |
| Sorting.CountLess | packages/project-editor/flow/expression/expression.ts:841-844 | the number of names strictly less than x is at most the length of the list |
| Sorting.CountLessConcat | packages/project-editor/flow/expression/expression.ts:841-844 | counting over a concatenation adds the counts of the two parts |
| Sorting.CountLessPermutation | packages/project-editor/flow/expression/expression.ts:841-844 | the count depends only on which names occur, and how often |
| Sorting.CountLessPrefix | packages/project-editor/flow/expression/expression.ts:841-844 | in a list whose first k names are less than x and the rest are not, the count is k |
| Sorting.SortedIndexIsRank | packages/project-editor/flow/expression/expression.ts:841-844 | a field's index in the sorted list is the number of field names that sort strictly before it, and a name that does not occur has no index |
| DataContexts.FindGlobal | packages/project-editor/features/variable/variable.tsx:367-373 | the global found has the name and is a global of the project, and none is found only when no global has it |
| DataContexts.DeclaringScope | packages/project-editor/features/variable/variable.tsx:500-504 | the scope found is the nearest one declaring the name as a local; none is found only when no scope declares it |
| DataContexts.FindVariableOrder | packages/project-editor/features/variable/variable.tsx:541-572 | `findVariable` returns `$it` for "$it", else the nearest local, else the global: locals shadow globals and `$it` shadows everything |
| DataContexts.RuntimeValueIn | packages/project-editor/features/variable/variable.tsx:479-497 | without a value the result is undefined; the value stored in the nearest scope that has one for the name is the one read |
| DataContexts.DefaultValueIn | packages/project-editor/features/variable/variable.tsx:526-539 | the default found is undefined or an override some scope holds for the name |
| DataContexts.SetIn | packages/project-editor/features/variable/variable.tsx:499-514 | a store keeps the number of scopes and every scope's locals and overrides; it throws "not found" exactly when neither a local nor a global has the name |
| DataContexts.SetThenRead | packages/project-editor/features/variable/variable.tsx:479-514 | a stored value is what the next read of that variable finds, and the scopes stay well formed |
| DataContexts.FindVariableName | packages/project-editor/features/variable/variable.tsx:541-572 | whatever `findVariable` returns is named as asked, and it returns something whenever a local or a global has the name, or the name is "$it" |
| DataContexts.SetLeavesOthers | packages/project-editor/features/variable/variable.tsx:499-514 | a store changes no other name's runtime value |
| DataContexts.BooleanDefault | packages/project-editor/features/variable/variable.tsx:627-641 | a boolean default is true exactly for "1" or "true", false exactly for "0" or "false", after trimming JavaScript white space and lower-casing ASCII letters, and otherwise undefined |
| DataContexts.SetThenGet | packages/project-editor/features/variable/variable.tsx:499-514 | reading a plain name just stored gives back the stored value |
| DataContexts.BooleanDefaults | packages/project-editor/features/variable/variable.tsx:595-641 | a boolean variable with a text default is read as that boolean default |
| DataContexts.BoolOf | packages/project-editor/features/variable/variable.tsx:676-688 | `getBool` is true exactly for `true` or a nonzero integer |
| DataContexts.DataContext.Chain | packages/project-editor/features/variable/variable.tsx:447-465 | a scope's chain holds itself and only valid scopes no deeper than it |
| DataContexts.DataContext.Frames | packages/project-editor/features/variable/variable.tsx:447-465 | a scope sees at least one frame, and the first is its own locals, overrides and runtime values |
| DataContexts.DataContext.Root | packages/project-editor/features/variable/variable.tsx:454-465 | a root scope has no parent, no locals, no overrides and no runtime values |
| DataContexts.DataContext.Child | packages/project-editor/features/variable/variable.tsx:454-465 | a child scope adds one frame in front of its parent's, with an empty store |
| DataContexts.DataContext.CreateWithDefaultValueOverrides | packages/project-editor/features/variable/variable.tsx:467-469 | the new scope has this one as parent and adds a frame that has only the overrides |
| DataContexts.DataContext.CreateWithLocalVariables | packages/project-editor/features/variable/variable.tsx:471-477 | the new scope has this one as parent and adds a frame whose locals are keyed by name, a later duplicate winning |
| DataContexts.DataContext.SetRuntimeValue | packages/project-editor/features/variable/variable.tsx:499-514 | the walk up the parent chain changes the scopes exactly as the specification of the store says, or reports its "not found" throw and changes nothing |
| DataContexts.DataContext.ClearRuntimeValues | packages/project-editor/features/variable/variable.tsx:516-519 | only this scope's store is emptied |
| DataContexts.DataContext.Get | packages/project-editor/features/variable/variable.tsx:574-674 | the loop over the dotted path returns what the specification of `get` gives |
| DataContexts.DataContext.GetBool | packages/project-editor/features/variable/variable.tsx:676-688 | `getBool` is the boolean reading of `get` |
| DataContexts.DataContext.GetMin | packages/project-editor/features/variable/variable.tsx:714-721 | the variable's minimum, 0 for an unknown name |
| DataContexts.DataContext.GetMax | packages/project-editor/features/variable/variable.tsx:723-730 | the variable's maximum, 1 for an unknown name |
| DataContexts.SetKeepsWellFormed | packages/project-editor/features/variable/variable.tsx:499-514 | a store keeps the scopes well formed: a value is stored only under a declared name |
| CodeGen.EnumMember | packages/project-editor/features/page/build/bitmaps.ts:8-12 | one `ident = value` member line, as a definition; CodeGen.EnumMemberValue states that its value parses back |
| CodeGen.EnumLines | packages/project-editor/features/page/build/bitmaps.ts:6-15 | the first member line is the `NONE = 0` member, and line i+1 is the i-th identifier with value i+1 |
| CodeGen.Terminated | packages/project-editor/features/page/build/bitmaps.ts:17 | every line but the last gets the separator's mark appended; the last line is unchanged |
| CodeGen.JoinTerminated | packages/project-editor/features/page/build/bitmaps.ts:17 | joining with `,\n` is the same as joining the comma-terminated lines with a line break |
| CodeGen.EnumMemberValue | packages/project-editor/features/page/build/bitmaps.ts:8-12 | the text after a member's ` = ` parses back as the member's value |
| CodeGen.EnumDeclaration | packages/project-editor/features/page/build/bitmaps.ts:17 | the `enum` text, as a definition; CodeGen.DeclarationAsLines and CodeGen.EnumDeclarationLines state how it reads line by line |
| CodeGen.DeclarationAsLines | packages/project-editor/features/page/build/bitmaps.ts:17 | a declaration is its header, its terminated member lines and `};`, joined by line breaks |
| CodeGen.EnumDeclarationLines | packages/project-editor/features/page/build/bitmaps.ts:17 | split on line breaks, a declaration reads back as the header, each member line with a comma except the last, then `};` |
| CodeGen.EnumLinesSingle | packages/project-editor/features/page/build/bitmaps.ts:6-15 | with single-line conventions no member line contains a line break |
| BitmapsBuild.BitmapsEnum | packages/project-editor/features/page/build/bitmaps.ts:5-18 | `buildGuiBitmapsEnum` as a definition; BitmapsBuild.BitmapsEnumMembers and BitmapsBuild.BitmapsEnumValues state its lines |
| BitmapsBuild.BitmapsEnumMembers | packages/project-editor/features/page/build/bitmaps.ts:5-18 | `BITMAP_ID_NONE = 0` is the first member; the i-th bitmap's `BITMAP_ID_` identifier follows with value i+1; the text's lines are the header, the comma-terminated members and `};` |
| BitmapsBuild.BitmapsEnumValues | packages/project-editor/features/page/build/bitmaps.ts:6-15 | the value on member line i parses back as i |
| BitmapsBuild.CollectBitmaps | packages/project-editor/features/page/build/bitmaps.ts:20-46 | no bitmaps gives null; otherwise one entry per bitmap, in order, holding the bitmap's name and decoded data |
| BitmapsBuild.Record | packages/project-editor/features/page/build/bitmaps.ts:54-60 | the writes of one bitmap record, as a definition; BitmapsBuild.RecordsRoundTrip states that each record reads back as its bitmap's data |
| BitmapsBuild.BuildGuiBitmapsData | packages/project-editor/features/page/build/bitmaps.ts:48-61 | one record per bitmap; each record reads back as that bitmap's width, height and bpp, a zero, then its pixels |
| BitmapsBuild.RecordsRoundTrip | packages/project-editor/features/page/build/bitmaps.ts:54-60 | each record of the array decodes back to the data of the bitmap at its position |
| VariableBuild.ProjectVariables | packages/project-editor/features/variable/build.ts:68-86 | the variables that reach the build, as a definition; VariableBuild.ProjectVariablesMembers and VariableBuild.OwnVariablesFirst state which and in what order, and VariableBuild.CollectVariables is the loop proved equal to it |
| VariableBuild.CollectVariables | packages/project-editor/features/variable/build.ts:68-86 | the filter loop yields the project's own kept variables followed by each loaded import's kept variables, in import order |
| VariableBuild.Kept | packages/project-editor/features/variable/build.ts:68-73 | the configuration filter keeps no more variables than it is given; VariableBuild.KeptMembers states exactly which survive |
| VariableBuild.KeptMembers | packages/project-editor/features/variable/build.ts:68-73 | a variable survives the filter exactly when it is in the list and has no restriction, or there is no configuration, or its restriction names the configuration |
| VariableBuild.KeptAll | packages/project-editor/features/variable/build.ts:69-70 | without a configuration the filter keeps every variable |
| VariableBuild.ImportedMembers | packages/project-editor/features/variable/build.ts:74-86 | a variable comes from the imports exactly when some loaded import has it and its restriction admits the configuration; imports without a project add nothing |
| VariableBuild.ProjectVariablesMembers | packages/project-editor/features/variable/build.ts:68-86 | a variable reaches the build exactly when it is the project's own or a loaded import's, and its restriction admits the configuration |
| VariableBuild.OwnVariablesFirst | packages/project-editor/features/variable/build.ts:68-77 | the project's own kept variables lead the list, in their own order |
| VariableBuild.NoConfigurationKeepsAll | packages/project-editor/features/variable/build.ts:68-86 | without a configuration the list is all own variables, then every loaded import's variables |
| VariableBuild.DataEnum | packages/project-editor/features/variable/build.ts:10-23 | `buildDataEnum` as a definition; VariableBuild.DataEnumMembers states its lines |
| VariableBuild.DataEnumMembers | packages/project-editor/features/variable/build.ts:10-23 | `DATA_ID_NONE = 0` comes first and the i-th variable's `DATA_ID_` identifier has value i+1; the text's lines are the header, the comma-terminated members and `};` |
| VariableBuild.DataFuncsDecl | packages/project-editor/features/variable/build.ts:25-39 | `buildDataFuncsDecl` as a definition; VariableBuild.DataFuncsDeclLines states its lines |
| VariableBuild.DataFuncsDeclLines | packages/project-editor/features/variable/build.ts:25-39 | read line by line the declarations are `data_none`'s, then one `void data_…(…)` declaration per variable, in order |
| VariableBuild.DataArrayDef | packages/project-editor/features/variable/build.ts:45-58 | `buildDataArrayDef` as a definition; VariableBuild.DataArrayDefLines states its lines |
| VariableBuild.DataArrayDefLines | packages/project-editor/features/variable/build.ts:45-58 | read line by line the definition is its header, the `data_none,` entry, each variable's `data_` entry with a comma except the last (one empty line when there are none), and `};` |
| VariableBuild.Build | packages/project-editor/features/variable/build.ts:60-106 | exactly the requested sections are produced (all when no names are given), each the text of that section over the kept variables |
| Styles.PartCheck | packages/project-editor/features/style/style.tsx:935-945 | a part passes exactly when it parses to a number in 0..255, and then gives that number |
| Styles.NumberCheck | packages/project-editor/features/style/style.tsx:922-931 | a number passes exactly when it is finite and in 0..255 |
| Styles.Labels | packages/project-editor/features/style/style.tsx:946-1044 | a string with k parts has k labels, one per part |
| Styles.Controller | packages/project-editor/features/style/style.tsx:935-1044 | each side is set by one of the k parts: one part sets all four, two set top/bottom then right/left, three set top/left, right and bottom, four set each side |
| Styles.PartChecks | packages/project-editor/features/style/style.tsx:933-1044 | the parts are checked in order, each with its label |
| Styles.LastError | packages/project-editor/features/style/style.tsx:933-1044 | the reported message is absent exactly when every part passes, and otherwise is the message of the last failing part, since each failure overwrites the error |
| Styles.RectFromParts | packages/project-editor/features/style/style.tsx:933-1047 | the per-part assignments of `getRect` give the last failing part's message and the rectangle the passing parts set |
| Styles.RectOf | packages/project-editor/features/style/style.tsx:914-1061 | `getRect`'s result per kind of value, as a definition; Styles.GetRect, Styles.RectOfMissing, Styles.RectOfNumber and Styles.GoodPartsSetSides state its cases |
| Styles.GetRect | packages/project-editor/features/style/style.tsx:914-1061 | `getRect` returns the error and rectangle of its specification, for missing values, numbers, strings and other types |
| Styles.RectOfMissing | packages/project-editor/features/style/style.tsx:921 | no value gives no error and an all-zero rectangle |
| Styles.RectOfNumber | packages/project-editor/features/style/style.tsx:922-931 | a number in 0..255 sets all four sides; any other number is an error and leaves every side 0 |
| Styles.GoodPartsSetSides | packages/project-editor/features/style/style.tsx:933-1044 | when every part is a number in range there is no error and each side is the part that sets it |
| Styles.AllPartsGood | packages/project-editor/features/style/style.tsx:933-1044 | with every check passing there is no error and each side holds its controlling part's value |
| Styles.FailingPartLeavesZero | packages/project-editor/features/style/style.tsx:933-1044 | a failing part is reported and leaves every side it sets at 0, whatever the other parts are |
| Styles.LastFailureReported | packages/project-editor/features/style/style.tsx:933-1044 | with several failing parts the message is the last one's |
| Styles.LastErrorIsLast | packages/project-editor/features/style/style.tsx:933-1044 | the last failure among the first n checks gives the reported message |
| Styles.LastFailureUnique | packages/project-editor/features/style/style.tsx:933-1044 | at most one check is the last failure |
| Styles.PiecesAreWords | packages/project-editor/features/style/style.tsx:933 | every piece of a split string holds word characters only |
| Styles.StringPartsNotNegative | packages/project-editor/features/style/style.tsx:933-1044 | no part of a string parses to a negative number, so for strings the range message comes only from values above 255 |
| Styles.NegativeNumberMessage | packages/project-editor/features/style/style.tsx:925-926 | as written, -1 gets a message naming 25 as the upper bound although 100 is accepted; repaired, the message names 255 |
| Styles.CorrectedNumberCheck | packages/project-editor/features/style/style.tsx:922-945 | repaired, a number is checked exactly as a single-part string is |
| Styles.FindStyle | packages/project-editor/features/style/style.tsx:1348-1356 | the style found has the name, and none is found only when no style has it |
| Styles.Parent | packages/project-editor/features/style/style.tsx:617-622 | the style a style inherits from, when it names one, is a style of the project |
| Styles.InheritedFrom | packages/project-editor/features/style/style.tsx:580-633 | an inherited value comes from a style that defines the property, and is that style's value |
| Styles.Links | packages/project-editor/features/style/style.tsx:617-622 | the inheritance links are one per style and point only to styles of the project |
| Styles.Defining | packages/project-editor/features/style/style.tsx:596 | the defining styles are exactly those that hold the property themselves |
| Styles.Reach | packages/project-editor/features/style/style.tsx:617-630 | each step along the inheritance chain lands on a style of the project |
| Styles.Walk | packages/project-editor/features/style/style.tsx:580-633 | the walk stops, if at all, at a defining style |
| Styles.InheritedFromIsWalk | packages/project-editor/features/style/style.tsx:580-633 | `getInheritedValue` stops where the walk on the inheritance graph stops and reads the value there |
| Styles.ReachEnds | packages/project-editor/features/style/style.tsx:617-633 | past the end of a chain there is nothing |
| Styles.ReachRepeats | packages/project-editor/features/style/style.tsx:590-594 | once the chain returns from step n to step m it repeats with period n - m |
| Styles.CycleStaysInPrefix | packages/project-editor/features/style/style.tsx:590-594 | a chain that comes back visits only styles among its first n steps |
| Styles.CycleMeetsNothing | packages/project-editor/features/style/style.tsx:590-594 | when the chain returns to a visited style that did not define the property, no style on it defines it |
| Styles.EndMeetsNothing | packages/project-editor/features/style/style.tsx:617-633 | when the chain ends at a style that does not define the property, no style on it does |
| Styles.WalkFollowsChain | packages/project-editor/features/style/style.tsx:580-633 | after n steps along the chain, the walk from there gives what the walk from the start gives |
| Styles.InheritedIsFirstOnChain | packages/project-editor/features/style/style.tsx:580-633 | with nothing visited, the inherited value comes from the first style along the chain that defines the property, and is absent exactly when none does, cyclic chains included |
| Styles.SelfCycleUndefined | packages/project-editor/features/style/style.tsx:590-594 | a style that inherits from itself and lacks the property gives undefined |
| Styles.Elements | packages/project-editor/features/style/style.tsx:590 | the membership test on the visited list is membership in its elements |
| Styles.InheritedValue | packages/project-editor/features/style/style.tsx:580-633 | `getInheritedValue` as a recursive definition over the visited set; Styles.GetInheritedValue is the loop proved equal to it, and Styles.InheritedIsFirstOnChain states which style supplies the value |
| Styles.GetInheritedValue | packages/project-editor/features/style/style.tsx:580-633 | the recursion, written as a loop pushing each style onto the visited list, returns the value of its specification |
| Styles.GetStyleProperty | packages/project-editor/features/style/style.tsx:1273-1289 | without an inherited value the result is the property's declared default (undefined for id, name, description and inheritFrom), and nothing for a name that is not a style property |
| Styles.DefaultWhenUndefined | packages/project-editor/features/style/style.tsx:1273-1289 | when no style on the chain defines a known property its declared default is used |
| Styles.OwnValueWins | packages/project-editor/features/style/style.tsx:596-614 | a property the style defines itself is its own value, translated only when themed colours are translated and it is a colour |
| Styles.MigratePadding | packages/project-editor/features/style/style.tsx:664-682 | the style's load hook removes both legacy padding keys and sets `padding` from them, and leaves an object without them unchanged |
| Styles.MigratedPaddingShape | packages/project-editor/features/style/style.tsx:675-680 | equal legacy paddings give that one value; different ones give one string, vertical first |
| Styles.MigratedPaddingMissing | packages/project-editor/features/style/style.tsx:669-670 | a missing legacy padding counts as 0 |
| Styles.IdTestNeverFires | packages/project-editor/features/style/style.tsx:706 | as written the id test never fires; repaired it fires exactly outside 1..32767 |
| Styles.IdMessages | packages/project-editor/features/style/style.tsx:705-724 | the id part of the check speaks only of the id and reports the range message exactly when the id test fires |
| Styles.CheckedColors | packages/project-editor/features/style/style.tsx:791-854 | the colour rules check only colour properties, never the id, radius or alignments |
| Styles.ColorMessages | packages/project-editor/features/style/style.tsx:791-854 | one invalid-value message per colour property that does not convert, and no other message |
| Styles.RectMessages | packages/project-editor/features/style/style.tsx:740-751 | a rectangle property gets one message about itself exactly when `getRect` reports an error for it |
| Styles.AlignMessages | packages/project-editor/features/style/style.tsx:763-789 | an alignment gets an invalid-value message exactly when it is outside its allowed values |
| Styles.RuleMessages | packages/project-editor/features/style/style.tsx:740-876 | the property rules, over the values they read, never report on the id |
| Styles.PropertyMessages | packages/project-editor/features/style/style.tsx:740-876 | the property rules never report on the id |
| Styles.Check | packages/project-editor/features/style/style.tsx:698-751 | the `check` of one style, as a definition; Styles.IdMessageReported, Styles.DashboardUnchecked, Styles.MissingBaseStopsCheck and the property-rule lemmas state its messages |
| Styles.IdMessageReported | packages/project-editor/features/style/style.tsx:698-724 | outside a dashboard project the id messages come first, and the range message is there exactly when the id test fires |
| Styles.IdMessageNeverReported | packages/project-editor/features/style/style.tsx:706 | as written no style gets the id-range message whatever its id; repaired, a style with an id outside 1..32767 gets it first |
| Styles.DashboardUnchecked | packages/project-editor/features/style/style.tsx:702-704 | a dashboard project's styles are not checked |
| Styles.MissingBaseStopsCheck | packages/project-editor/features/style/style.tsx:728-735 | a missing base style is reported and then none of the property rules run |
| Styles.RuleMessagesReported | packages/project-editor/features/style/style.tsx:740-876 | over any resolved values, a negative border radius, an alignment outside its set and a colour that does not convert are each reported exactly when they occur |
| Styles.PropertyRulesReported | packages/project-editor/features/style/style.tsx:740-876 | for the values a style inherits along its chain, else the declared defaults, a negative border radius, an alignment outside its set and a colour that does not convert are each reported exactly when they occur |
| Util.FormatNumber | packages/eez-studio-shared/util.ts:41-49 | for a positive width the result has exactly `width` characters; a width of 0 keeps the whole upper-cased text |
| Util.FormatNumberFits | packages/eez-studio-shared/util.ts:41-49 | a number whose digits fit is written as leading zeros then its upper-case digits, and the result reads back in `base` as the number |
| Util.FormatNumberTruncates | packages/eez-studio-shared/util.ts:41-49 | a number with more digits than `width` keeps only its `width` lowest digits |
| Util.UpperKeepsDigits | packages/eez-studio-shared/util.ts:48 | upper-casing a digit string keeps it a digit string of the same value |
| Util.Clamp | packages/eez-studio-shared/util.ts:92-100 | `min` below the range, `max` above it, the value itself inside it; for min ≤ max the result lies in [min, max] |
| Util.ClampIdempotent | packages/eez-studio-shared/util.ts:92-100 | clamping into a proper range twice is clamping once |
| Util.CompareVersions | packages/eez-studio-shared/util.ts:301-334 | `compareVersions` as a definition over the parsed parts; Util.CompareVersionsLoop is the loop proved equal to it, and Util.CompareVersionsReflexive, Util.CompareVersionsAntisymmetric and Util.CompareVersionsTransitive state that it is a total preorder |
| Util.CompareVersionsLoop | packages/eez-studio-shared/util.ts:301-334 | the loop with its early returns computes the part-wise comparison function |
| Util.CompareFromIsLex | packages/eez-studio-shared/util.ts:312-333 | the loop compares the numeric prefixes of the two part lists lexicographically, a proper prefix being smaller |
| Util.LexEqual | packages/eez-studio-shared/util.ts:312-333 | the lexicographic comparison is 0 exactly on equal sequences |
| Util.CompareVersionsReflexive | packages/eez-studio-shared/util.ts:301-334 | every version compares equal to itself |
| Util.CompareVersionsAntisymmetric | packages/eez-studio-shared/util.ts:301-334 | swapping the arguments negates the result, which is -1, 0 or 1 |
| Util.CompareVersionsTransitive | packages/eez-studio-shared/util.ts:301-334 | "not greater" is transitive, and strict when either step is strict |
| Util.CompareSkipsEqualParts | packages/eez-studio-shared/util.ts:312-331 | parts that are equal numbers up to index i leave the decision to index i |
| Util.FirstDifferenceDecides | packages/eez-studio-shared/util.ts:312-333 | at the first index where the parts are not equal numbers: NaN or missing on both sides gives 0, on one side only makes that side smaller, otherwise the numbers decide |
| Util.KeybindingEqual | packages/eez-studio-shared/util.ts:191-206 | `keybindingEqual` as a predicate over the lower-cased `+`-parts; Util.KeybindingEqualLoop is the loop proved equal to it, and Util.KeybindingReflexive and Util.KeybindingNotSymmetric state its properties |
| Util.KeybindingEqualLoop | packages/eez-studio-shared/util.ts:191-206 | the loop returns true exactly when both bindings have as many `+`-parts and every lower-cased part of the first occurs among the second's |
| Util.KeybindingCaseInsensitive | packages/eez-studio-shared/util.ts:191-193 | upper-casing the ASCII letters of either binding does not change the comparison |
| Util.KeybindingReflexive | packages/eez-studio-shared/util.ts:191-206 | every binding equals itself |
| Util.KeybindingNotSymmetric | packages/eez-studio-shared/util.ts:191-206 | with a repeated part the comparison is not symmetric: "a+a" matches "a+b" but not the reverse |
| Util.IsReservedKeybinding | packages/eez-studio-shared/util.ts:208-218 | true exactly when some reserved binding equals the input under the keybinding comparison |
| Strings.ToLower | packages/eez-studio-shared/util.ts:192-193 | `toLowerCase` on ASCII letters: it keeps the length, lowers each ASCII capital and leaves every other character as it is |
| Strings.ToUpper | packages/eez-studio-shared/util.ts:48 | `toUpperCase` on ASCII letters: it keeps the length, raises each ASCII small letter and leaves every other character as it is |
| Strings.ToLowerIdempotent | packages/eez-studio-shared/util.ts:192-193 | lowering the ASCII letters twice is lowering them once |
| Strings.Trim | packages/project-editor/features/variable/variable.tsx:629-632 | `trim` leaves a string that starts and ends with no JavaScript white space, and no longer than the input; a string with no white space is unchanged |
| Strings.SplitNonWord | packages/project-editor/features/style/style.tsx:933 | `split(/\W+/)` gives at least one piece; Styles.PiecesAreWords states that the pieces of a trimmed string are words |
| Strings.Split | packages/eez-studio-shared/util.ts:302-310 | `split` on one character gives at least one piece, and no piece contains the separator |
| Strings.JoinSplit | packages/eez-studio-shared/util.ts:302-310 | joining the pieces of a split with the separator gives back the string |
| Strings.SplitJoin | packages/project-editor/features/page/build/bitmaps.ts:17 | splitting a join of separator-free pieces gives back the pieces |
| Strings.NatToDigitsValue | packages/eez-studio-shared/util.ts:46 | `n.toString(base)` spells `n` in `base` |
| Strings.ParseInt | packages/eez-studio-shared/util.ts:302-310 | `parseInt` with no radix, as a definition; Strings.ParseIntRoundTrip states that it reads back the decimal text of every integer |
| Strings.IntToString | packages/project-editor/flow/expression/operations.ts:15-47 | the decimal text of an integer below 10^21 in magnitude is never empty; Strings.ParseIntRoundTrip states that `parseInt` reads it back |
| Strings.ParseIntRoundTrip | packages/eez-studio-shared/util.ts:305 | `parseInt` reads back the decimal text of every integer |
| Strings.LeadingZerosValue | packages/eez-studio-shared/util.ts:46 | leading zeros do not change the value of a digit string |
| Installer.CompareVersionsIsPreorder | installation/make-electron-builder-yml.ts:19-45 | `compareVersions` is a total preorder: every version equals itself, swapping the arguments negates the result, and "not newer" is transitive, strictly when either step is strict |
| Installer.BestUpTo | installation/make-electron-builder-yml.ts:103-115 | the choice the `forEach` leaves after the first n entries is always one of those n entries |
| Installer.BestUpToIsGreatest | installation/make-electron-builder-yml.ts:103-115 | for any total preorder there is no choice exactly when no entry has the id; otherwise the choice has the id, no entry with the id has a greater version, and every earlier entry with the id has a strictly smaller one, so a tie keeps the first |
| Installer.Best | installation/make-electron-builder-yml.ts:103-115 | the entry `getExtraResource` picks for an id, as a definition; Installer.BestIsGreatest states that it has the greatest version, and Installer.SelectExtension is the loop proved equal to it |
| Installer.BestIsGreatest | installation/make-electron-builder-yml.ts:103-115 | with `compareVersions`: the chosen extension is the one with the greatest version for the id, the first of equals, and none exists only when the catalog lacks the id |
| Installer.SelectExtension | installation/make-electron-builder-yml.ts:103-115 | the loop over the catalog ends with exactly the greatest-version choice |
| Installer.ExtensionPaths | installation/make-electron-builder-yml.ts:96-145 | the loop over the ids either stops early (a missing extension or a hash mismatch, never a resource list) or yields one zip path per id |
| Installer.Basename | installation/make-electron-builder-yml.ts:154-157 | a basename is a suffix of the path and contains no '/' |
| Installer.BasenameOfJoin | installation/make-electron-builder-yml.ts:154-157 | a name without '/' is the basename of any directory joined to it |
| Installer.ToResources | installation/make-electron-builder-yml.ts:154-157 | one resource per path, in order, from the path to its basename |
| Installer.ExtraResources | installation/make-electron-builder-yml.ts:71-158 | `getExtraResource`'s outcome as a definition; Installer.GetExtraResource is the method proved equal to it, and Installer.ResourceOrder states the list it builds |
| Installer.GetExtraResource | installation/make-electron-builder-yml.ts:71-158 | the method returns the early stop at the first missing extension, the throw at the first hash mismatch, or the full resource list, as the recursive definition says |
| Installer.ExtensionPathsInOrder | installation/make-electron-builder-yml.ts:98-145 | on success the i-th zip path is the extra-resources directory followed by `name-version.zip` of the greatest-version entry for the i-th id |
| Installer.ResourceOrder | installation/make-electron-builder-yml.ts:147-157 | on success the list is `catalog-version.json`, `catalog.json`, one zip per id in id order, then `expression-grammar.pegjs`, each copied under its basename |
| Installer.ListShape | installation/make-electron-builder-yml.ts:147-157 | any path list framed by the two catalog files and the grammar maps to resources with those three fixed names in first, second and last place |
| Installer.ConstantBasenames | installation/make-electron-builder-yml.ts:147-152 | the three fixed paths have basenames `catalog-version.json`, `catalog.json` and `expression-grammar.pegjs` |
| Installer.StopPropagates | installation/make-electron-builder-yml.ts:117-140 | once the loop stops at some id, the result for all ids is that same stop: nothing after it is downloaded or listed |
| Installer.MissingStops | installation/make-electron-builder-yml.ts:117-120 | an id without a catalog entry stops the loop right there with the missing-extension outcome |
| Serial.NextChunk | packages/instrument/connection/interfaces/serial.ts:81-87 | a chunk is a prefix of the pending data of at most 64 characters (64 UTF-16 code units for data in the Basic Multilingual Plane), and is non-empty when data is pending |
| Serial.Rest | packages/instrument/connection/interfaces/serial.ts:81-87 | what stays pending is strictly shorter than before, unless nothing was pending |
| Serial.ChunkThenRest | packages/instrument/connection/interfaces/serial.ts:81-87 | the chunk followed by the rest is the pending data, and nothing stays pending exactly when it fitted in one chunk |
| Serial.Chunks | packages/instrument/connection/interfaces/serial.ts:78-95 | the chunks successive drains send, as a definition; Serial.ChunksCover and Serial.LastChunk state them |
| Serial.ChunksCover | packages/instrument/connection/interfaces/serial.ts:78-95 | draining data completely sends ceil(n/64) non-empty chunks of at most 64 characters whose concatenation is the data |
| Serial.LastChunk | packages/instrument/connection/interfaces/serial.ts:81-83 | data of at most 64 characters goes out as one chunk and leaves nothing pending |
| Serial.SerialInterface.constructor | packages/instrument/connection/interfaces/serial.ts:11-18 | a new interface has no pending data and has written nothing |
| Serial.SerialInterface.Write | packages/instrument/connection/interfaces/serial.ts:97-104 | with data pending, `write` only appends; otherwise it stores the data and requests one drain, and throws when there is no port; the chunks written plus the pending data stay equal to everything ever written |
| Serial.SerialInterface.SendNextChunk | packages/instrument/connection/interfaces/serial.ts:78-95 | without a port or pending data nothing changes; otherwise the next chunk is written, the rest stays pending, and another drain is requested only when something remains; nothing is lost or reordered |
| Flows.Visit | packages/project-editor/core/search.ts:100-125 | the visit is non-empty for a non-empty component list, starts at the first component and meets every component |
| Flows.WiredMap | packages/project-editor/flow/flow.tsx:231-247 | the wired-components table as a definition over the visit; Flows.WiredMapEntries and Flows.LaterEntriesWin state its entries, and Flows.WiredComponents is the loop proved equal to it |
| Flows.WiredMapEntries | packages/project-editor/flow/flow.tsx:231-247 | the wired-components table has an entry for exactly the wire ids of the visited components, each mapped to a component with that id |
| Flows.LaterEntriesWin | packages/project-editor/flow/flow.tsx:231-247 | when several components share a wire id, the table holds the last one visited |
| Flows.WiredComponents | packages/project-editor/flow/flow.tsx:231-247 | the loop over the visit fills exactly the table the visit defines |
| Flows.Unselected | packages/project-editor/flow/flow.tsx:282-310 | a delete never adds lines |
| Flows.UnselectedMembers | packages/project-editor/flow/flow.tsx:282-310 | a line is kept exactly when it was there and the delete filter (touching the component, into the input, out of the output) does not select it |
| Flows.SelectedLines | packages/project-editor/flow/flow.tsx:282-310 | the removed lines are no more than the lines before |
| Flows.DeletePartitions | packages/project-editor/flow/flow.tsx:282-310 | the kept lines and the removed lines together are, as a multiset, the lines before: a delete loses no other line |
| Flows.PartitionStep | packages/project-editor/flow/flow.tsx:282-310 | the partition of the lines into kept and removed extends from a prefix to one more line |
| Flows.SplitStep | packages/project-editor/flow/flow.tsx:282-310 | a line added to a partition lands on exactly one side and keeps it a partition |
| Flows.DeleteNothing | packages/project-editor/flow/flow.tsx:282-310 | a delete whose filter selects no line leaves the lines unchanged |
| Flows.Reroute | packages/project-editor/flow/flow.tsx:312-346 | one connection line after a reroute, as a definition; Flows.RerouteChangesOnlyPort states what it changes |
| Flows.RerouteChangesOnlyPort | packages/project-editor/flow/flow.tsx:312-346 | a reroute keeps both endpoints and the other port, changes nothing on lines it does not apply to, and sets the chosen port to the new name on those it does |
| Flows.Flow.constructor | packages/project-editor/flow/flow.tsx:177-229 | a flow starts with the given components and lines |
| Flows.Flow.DeleteConnectionLines | packages/project-editor/flow/flow.tsx:282-310 | the three delete methods leave the components alone and keep exactly the lines the filter does not select, in order |
| Flows.Flow.RerouteConnectionLines | packages/project-editor/flow/flow.tsx:312-346 | the two reroute methods leave the components and the number of lines alone and reroute every line in place |
| Flows.Flow.PasteFlowFragment | packages/project-editor/flow/flow.tsx:255-280 | pasting rewires the fragment with fresh ids, moves each component 20 right and 20 down, and appends its components and lines to the flow's |
| Flows.IdMap | packages/project-editor/flow/flow.tsx:408-415 | the old-to-new id table has exactly the fragment's old ids as keys |
| Flows.Relink | packages/project-editor/flow/flow.tsx:417-422 | relinking keeps the number of lines and maps both endpoints of each line through the table |
| Flows.IdMapOfDistinct | packages/project-editor/flow/flow.tsx:408-415 | with distinct old ids, each component's old id maps to the fresh id it was given |
| Flows.IdMapEarlier | packages/project-editor/flow/flow.tsx:408-415 | an id other than the last component's maps as it did before the last component was added |
| Flows.DistinctPrefix | packages/project-editor/flow/flow.tsx:408-415 | distinct ids stay distinct on every prefix of the components |
| Flows.RewireKeepsConnectivity | packages/project-editor/flow/flow.tsx:408-423 | with distinct old ids, a line from component j to component k runs after the rewire from j's new id to k's new id |
| Flows.WireIDsOf | packages/project-editor/flow/flow.tsx:386-392 | the set of selected ids is exactly the wire ids of the selected components |
| Flows.InternalLines | packages/project-editor/flow/flow.tsx:394-405 | the copied lines are exactly the flow's lines with both endpoints among the selected ids |
| Flows.FlowFragment.constructor | packages/project-editor/flow/flow.tsx:355-380 | a new fragment is empty |
| Flows.InternalLinesMapped | packages/project-editor/flow/flow.tsx:394-405 | every line `addObjects` copies has both endpoints among the selected components, which is what `rewire` needs to relink it |
| Flows.FlowFragment.AddObjects | packages/project-editor/flow/flow.tsx:381-406 | the fragment holds a copy of each selected component in order, and the lines of the flow between two selected components |
| Flows.FlowFragment.Rewire | packages/project-editor/flow/flow.tsx:408-423 | every component gets the next fresh id, and both endpoints of every line are mapped from old ids to new ones |
| Flows.FlowFragment.RenewIds | packages/project-editor/flow/flow.tsx:411-415 | the first loop gives every component the next fresh id, leaves the lines alone and builds the old-to-new table |
| Flows.FlowFragment.RelinkLines | packages/project-editor/flow/flow.tsx:417-422 | the second loop maps both endpoints of every line through the table and leaves the components alone |
| Flows.AddObjectsCopiesInternal | packages/project-editor/flow/flow.tsx:394-405 | a line with non-empty endpoints is copied exactly when both its source and its target are ids of selected components |
| Flows.DuplicatesOfExact | packages/project-editor/flow/flow.tsx:208-224 | for line i, the pairs logged are exactly (i, j) with j earlier and line j equal to line i |
| Flows.DuplicatePairsExact | packages/project-editor/flow/flow.tsx:208-224 | the flow's load hook logs exactly the pairs of lines equal in source, output, target and input, later line first |
| Flows.ReportDuplicates | packages/project-editor/flow/flow.tsx:208-224 | the nested loops log exactly those duplicate pairs, in that order, and change nothing |
| Flows.RenameWidgets | packages/project-editor/flow/flow.tsx:373-378 | a truthy legacy 'widgets' field is moved to 'components'; otherwise the object is unchanged |
| Search.MembersHold | packages/project-editor/core/search.ts:37-98 | a value is yielded by the properties from position i on exactly when some property at or after i yields it |
| Search.Visit | packages/project-editor/core/search.ts:37-98 | `visitWithPause` and `visitWithoutPause` as one definition; Search.VisitMembers, Search.VisitSearchable and Search.PauseOnlyAddsMarkers state what it yields |
| Search.VisitMembers | packages/project-editor/core/search.ts:37-98 | a visit yields exactly the truthy plain values of the object's searchable properties and whatever the visits of its array elements and searchable nested properties yield; skipped properties and absent children contribute nothing |
| Search.VisitSearchable | packages/project-editor/core/search.ts:37-98 | every value a visit yields is truthy and belongs to a property not excluded from search |
| Search.PauseOnlyAddsMarkers | packages/project-editor/core/search.ts:37-98 | the paused visit yields the same values in the same order as the unpaused one, which yields no pause markers |
| Search.PauseMembers | packages/project-editor/core/search.ts:37-98 | the same, for the properties from position i on |
| Search.PausePiece | packages/project-editor/core/search.ts:46-62 | the same, for one property |
| Search.ObjectMembersHold | packages/project-editor/core/search.ts:100-125 | an object lies below the properties from position i on exactly when it lies below one of them |
| Search.BelowSplit | packages/project-editor/core/search.ts:100-125 | lying below some position from i on means lying below i or below a later position |
| Search.Objects | packages/project-editor/core/search.ts:100-125 | `visitObjects` as a definition; Search.PreOrder, Search.OnlyObjects and Search.ArrayInOrder state its order |
| Search.PreOrder | packages/project-editor/core/search.ts:100-125 | `visitObjects` is pre-order: an object comes first, followed by exactly the objects below its searchable nested properties; an array yields exactly the objects of its elements |
| Search.OnlyObjects | packages/project-editor/core/search.ts:100-125 | arrays are flattened: only objects are yielded |
| Search.ArrayInOrder | packages/project-editor/core/search.ts:103-107 | array elements are visited in index order: one more element adds its objects at the end |
| Search.FilterMembers | packages/project-editor/core/search.ts:152-195 | filtering the visit keeps exactly the values the test accepts, and pause markers only when pausing |
| Search.Fold | packages/project-editor/core/search.ts:140-167 | folding lower-cases the ASCII letters unless case is matched, keeps the length, and adds or removes no '=' and no outer white space |
| Search.SidePattern | packages/project-editor/core/search.ts:144-150 | each side of a split pattern is trimmed and, unless case is matched, lower-case |
| Search.Prepare | packages/project-editor/core/search.ts:140-150 | the name and value patterns contain no '=' and no outer white space and are lower-case unless case is matched; a pattern without '=' has no value pattern |
| Search.OnePiece | packages/project-editor/core/search.ts:144 | splitting a folded pattern without '=' gives the pattern alone |
| Search.SplitPair | packages/project-editor/core/search.ts:144 | splitting "n=v" without other '=' gives n and v |
| Search.NameValuePattern | packages/project-editor/core/search.ts:144-189 | a "name=value" pattern compares its trimmed, folded name side with the property name and its value side with the value |
| Search.SearchForPattern | packages/project-editor/core/search.ts:131-196 | `searchForPattern` as a definition; Search.PatternSearchResults states what it yields |
| Search.PatternSearchResults | packages/project-editor/core/search.ts:131-196 | a pattern search yields exactly the visited values whose text matches, pause markers only when pausing, and never a falsy value or one excluded from search |
| Search.TextMatch | packages/project-editor/core/search.ts:169-189 | the match rule on a folded name and value, as a predicate; Search.WholeWordIsSubstring, Search.PlainPattern and Search.NameValuePattern state it |
| Search.WholeWordIsSubstring | packages/project-editor/core/search.ts:169-189 | a whole-word match is also a substring match |
| Search.PlainPattern | packages/project-editor/core/search.ts:169-189 | without '=' in the pattern only the whole pattern is compared with the value, and the name plays no part |
| Strings.LowerOfUpper | packages/project-editor/core/search.ts:140-142 | with ASCII case mapping, lower-casing an upper-cased text is lower-casing it |
| Search.PatternCaseIgnored | packages/project-editor/core/search.ts:140-150 | a search that ignores case prepares the same patterns whatever the case of the ASCII letters of the pattern typed |
| Search.TextCaseIgnored | packages/project-editor/core/search.ts:164-167 | a search that ignores case finds the same values whatever the case of the ASCII letters of their names and texts |
| Search.SearchForReference | packages/project-editor/core/search.ts:198-305 | `searchForReference` as a definition; Search.ReferenceSearchResults states what it yields |
| Search.ReferenceSearchResults | packages/project-editor/core/search.ts:198-305 | a reference search yields exactly the visited values that refer to the target, and pause markers only when pausing |
| Search.RefMatch | packages/project-editor/core/search.ts:241-293 | whether a visited value refers to the target, as a predicate; Search.NamedReference and Search.ConfigurationReferenceListed state its cases |
| Search.NamedReference | packages/project-editor/core/search.ts:241-275 | an object reference or themed colour refers to a named object exactly when it lies in the object's collection and holds its name |
| Search.ConfigurationReferenceListed | packages/project-editor/core/search.ts:276-293 | a configuration list refers to a named object when it lies in the object's collection and lists its name |
| Search.IsReferenced | packages/project-editor/core/search.ts:491-508 | the loop returns true exactly when the reference search yields some value |
| Search.ReplacedEntriesPointwise | packages/project-editor/core/search.ts:523-533 | renaming a configuration list keeps its length and order and replaces exactly the entries equal to the old name |
| Search.ReplaceEntries | packages/project-editor/core/search.ts:523-533 | the loop builds exactly that renamed list |
| Search.ReplaceIn | packages/project-editor/core/search.ts:510-549 | replacing keeps an object an object and an array an array, with the same number of properties or elements |
| Search.ReplaceInStep | packages/project-editor/core/search.ts:510-549 | at each position, a nested child is replaced recursively, a plain value that referred to the target gets its replaced value, and any other plain value is unchanged |
| Search.ListNoLongerRefers | packages/project-editor/core/search.ts:523-533 | a renamed list no longer holds the old name when the new one differs |
| Search.ReplacedValueStopsMatching | packages/project-editor/core/search.ts:510-549 | a renamed property no longer refers to the named object when the new name differs from its name |
| Search.NoReferenceLeft | packages/project-editor/core/search.ts:510-549 | no value visited after the replacement refers to the named object |
| Search.ReplaceObjectReference | packages/project-editor/core/search.ts:491-549 | `replaceObjectReference` as a definition on the object tree; Search.RenameRemovesReferences and Search.UnreferencedUnchanged state its effect |
| Search.RenameRemovesReferences | packages/project-editor/core/search.ts:491-549 | after renaming the references to a named object to a different name, the object is no longer referenced |
| Search.NothingToReplace | packages/project-editor/core/search.ts:510-549 | when nothing below refers to the target, the replacement changes nothing |
| Search.UnreferencedUnchanged | packages/project-editor/core/search.ts:491-549 | replacing the references to an object nobody refers to changes nothing |
| Draw.Clamp | packages/project-editor/flow/draw.ts:385 | a store into a clamped byte array keeps values in 0..255, stores 0 below and 255 above |
| Draw.ImageBuffer.constructor | packages/project-editor/flow/draw.ts:381-386 | an image buffer holds the given width, height and pixel bytes |
| Draw.FourStores | packages/project-editor/flow/draw.ts:399-402 | the four channel stores of one pixel together give the painted pixel |
| Draw.FourStoresAt | packages/project-editor/flow/draw.ts:399-402 | after the four stores, each byte of the pixel holds its channel and every other byte is kept |
| Draw.StoredAt | packages/project-editor/flow/draw.ts:385 | one store keeps the length and changes exactly the byte stored, to the clamped value |
| Draw.Store | packages/project-editor/flow/draw.ts:399-402 | one typed-array assignment changes the array exactly as the store above |
| Draw.PixelRGBA | packages/project-editor/flow/draw.ts:388-404 | the buffer afterwards holds the pixel painted at (x, y) |
| Draw.PaintedBytes | packages/project-editor/flow/draw.ts:388-404 | `pixelRGBA` writes r, g, b and a into bytes (y·width + x)·4 to +3 and changes no other byte |
| Draw.WeightedAlpha | packages/project-editor/flow/draw.ts:417-425 | the alpha written is always 0..255 and, without overflow, (a·weight)>>8 capped at 255 |
| Draw.WeightExtremes | packages/project-editor/flow/draw.ts:417-425 | a weight of 256 keeps a valid alpha and a weight of 0 makes it 0 |
| Draw.WeightNeverRaises | packages/project-editor/flow/draw.ts:417-425 | a weight of at most 256 never raises a valid alpha |
| Draw.PixelRGBAWeight | packages/project-editor/flow/draw.ts:406-428 | the buffer afterwards holds the pixel painted with the weighted alpha |
| Draw.Row | packages/project-editor/flow/draw.ts:455-478 | painting a row keeps the buffer's length |
| Draw.Column | packages/project-editor/flow/draw.ts:430-453 | painting a column keeps the buffer's length |
| Draw.HLineRGBA | packages/project-editor/flow/draw.ts:455-478 | the loop paints row y from the smaller to the larger x, whatever the order of the endpoints |
| Draw.VLineRGBA | packages/project-editor/flow/draw.ts:430-453 | the loop paints column x from the smaller to the larger y, whatever the order of the endpoints |
| Draw.PaintedAt | packages/project-editor/flow/draw.ts:388-404 | each byte after painting a pixel is its channel when it belongs to the pixel and unchanged otherwise |
| Draw.RowBytes | packages/project-editor/flow/draw.ts:455-478 | a horizontal line paints every pixel of row y with x in [min, max] inclusive and changes no other byte |
| Draw.ColumnBytes | packages/project-editor/flow/draw.ts:430-453 | a vertical line paints every pixel of column x with y in [min, max] inclusive and changes no other byte |
| Draw.RowSpan | packages/project-editor/flow/draw.ts:455-478 | the painted bytes of a row are exactly those from 4·(y·width + lo) to 4·(y·width + hi) + 3 |
| Draw.Widths | packages/project-editor/flow/draw.ts:104-116 | one glyph width per character (a UTF-16 code unit for text in the Basic Multilingual Plane), a missing glyph counting as 0 |
| Draw.MeasuredWidth | packages/project-editor/flow/draw.ts:118-130 | the width `measureStr` reports, as a definition; Draw.MeasureStr is the loop proved equal to it, and Draw.MeasuredWithinLimit and Draw.CappedSum state its value |
| Draw.MeasureStr | packages/project-editor/flow/draw.ts:118-130 | the loop returns the width the specification function gives |
| Draw.MeasuredWithinLimit | packages/project-editor/flow/draw.ts:118-130 | with a positive limit the reported width never exceeds it |
| Draw.SumMonotone | packages/project-editor/flow/draw.ts:118-130 | with non-negative widths, the sum of a prefix is at most the whole sum |
| Draw.CappedSum | packages/project-editor/flow/draw.ts:118-130 | with non-negative glyph widths and a positive limit, the result is the sum of the widths capped at the limit |
| Draw.InnerBox | packages/project-editor/flow/draw.ts:291-319 | the background box is the widget's box, shrunk by each border side when a border is drawn |
| Draw.InnerRadius | packages/project-editor/flow/draw.ts:296-319 | the background's corner radius is unchanged without a border and otherwise max(radius - widest side, 0), never negative |
| Draw.XOffset | packages/project-editor/flow/draw.ts:346-357 | left-aligned text starts after the left padding, right-aligned text ends at the right padding, and centred text is never left of the box |
| Draw.CentredHorizontally | packages/project-editor/flow/draw.ts:352-356 | centred text that fits leaves left and right margins that differ by at most one pixel, the extra one on the right |
| Draw.YOffset | packages/project-editor/flow/draw.ts:360-366 | the vertical text position, as a definition; Draw.CentredVertically states the centring |
| Draw.CentredVertically | packages/project-editor/flow/draw.ts:360-366 | centred text leaves top and bottom margins that differ by at most one pixel |
| Draw.TextLayout | packages/project-editor/flow/draw.ts:280-370 | the layout of `drawText`: the inner box and radius, and a text position only with a font and a positive width and height |
| Plotly.DistinctCount | packages/project-editor/flow/widgets/plotly.tsx:102-103 | a queue without duplicates has as many distinct elements as entries |
| Plotly.QueueSize | packages/project-editor/flow/widgets/plotly.tsx:102-103 | while the table and the queue agree, there is exactly one queue entry per pending chart |
| Plotly.IndexOf | packages/project-editor/flow/widgets/plotly.tsx:171 | `indexOf` is -1 exactly when the element is absent, and otherwise the position of its first occurrence |
| Plotly.RemovedConsistent | packages/project-editor/flow/widgets/plotly.tsx:168-172 | removing an element's record and its queue entry keeps the queue's elements exactly the table's keys, without duplicates |
| Plotly.RemoveKeepsDistinct | packages/project-editor/flow/widgets/plotly.tsx:171 | splicing one entry out of a duplicate-free queue keeps it duplicate-free and removes exactly that element |
| Plotly.ChartUpdates.constructor | packages/project-editor/flow/widgets/plotly.tsx:102-104 | the table and the queue start empty, with no update scheduled |
| Plotly.ChartUpdates.UpdateLineChart | packages/project-editor/flow/widgets/plotly.tsx:123-148 | the first sample for an element creates its record, queues it once and schedules an update; a later sample appends to x and y in parallel; a gauge's record makes the push throw and nothing changes; the queue stays exactly the table's keys |
| Plotly.ChartUpdates.UpdateGauge | packages/project-editor/flow/widgets/plotly.tsx:150-166 | the first value for an element creates its record, queues it once and schedules an update; a later value overwrites the gauge's value and leaves a line chart's update as it was; the queue stays exactly the table's keys |
| Plotly.ChartUpdates.DoUpdateChart | packages/project-editor/flow/widgets/plotly.tsx:106-121 | the head of the queue is taken off, its record is removed and is the update applied, so updates are applied in queue order; another call is scheduled exactly when elements remain |
| Plotly.ChartUpdates.RemoveChart | packages/project-editor/flow/widgets/plotly.tsx:168-180 | an element without a pending update changes nothing; otherwise its record and its queue entry go; the timer is cleared once the table is empty |
| Plotly.PlotQueue.constructor | packages/project-editor/flow/widgets/plotly.tsx:33-41 | the request queue starts empty and idle |
| Plotly.PlotQueue.NewPlotOrReact | packages/project-editor/flow/widgets/plotly.tsx:43-62 | a request joins the end of the queue, and a call is scheduled unless one is already active |
| Plotly.PlotQueue.Start | packages/project-editor/flow/widgets/plotly.tsx:64-66 | the scheduled call serves the oldest waiting request |
| Plotly.PlotQueue.Finish | packages/project-editor/flow/widgets/plotly.tsx:68-79 | the request served is resolved, and the next call is scheduled exactly when requests wait |
| Plotly.ResolvedInOrder | packages/project-editor/flow/widgets/plotly.tsx:43-80 | the requests resolved so far are the oldest requests made, in the order they were made: first in, first out, one at a time |
| Plotly.BufferStep | packages/project-editor/flow/widgets/plotly.tsx:429-432 | each sample is pushed and is the newest; either the length grows by one or the oldest sample is dropped |
| Plotly.RunningState.constructor | packages/project-editor/flow/widgets/plotly.tsx:341-343 | the sample buffer starts empty |
| Plotly.RunningState.Receive | packages/project-editor/flow/widgets/plotly.tsx:423-434 | a missing input value leaves the buffer as it was; a present one updates the buffer by one step |
| Plotly.Arrived | packages/project-editor/flow/widgets/plotly.tsx:423-428 | the samples that arrived, in order: never more than the inputs, and one per input when every input is present |
| Plotly.Window | packages/project-editor/flow/widgets/plotly.tsx:423-434 | the sample buffer after a run of input values, missing ones skipped, as a definition in both readings; Plotly.AsWrittenWindow and Plotly.CorrectedWindow state what it keeps |
| Plotly.AsWrittenWindow | packages/project-editor/flow/widgets/plotly.tsx:423-434 | as written, the buffer keeps only the newest maxPoints - 1 of the samples that arrived |
| Plotly.AsWrittenBelowMaxPoints | packages/project-editor/flow/widgets/plotly.tsx:423-434 | as written, whatever inputs arrive, the buffer stays shorter than maxPoints |
| Plotly.AsWrittenDropsEverything | packages/project-editor/flow/widgets/plotly.tsx:429-432 | as written, with maxPoints 1 the chart keeps no sample at all, where the corrected buffer keeps the newest one |
| Plotly.CorrectedWindow | packages/project-editor/flow/widgets/plotly.tsx:429-432 | corrected to drop only once the length exceeds maxPoints, the buffer keeps exactly the newest maxPoints of the samples that arrived |
| Plotly.SuffixPush | packages/project-editor/flow/widgets/plotly.tsx:429-432 | the newest k samples before the last one, followed by the last, are the newest k + 1 |

## Left out

- The expression grammar (`expressionParser`, `identifierParser`) is not part of this model. Parsing is a function parameter that returns a tree or an error message.
- The `Assets` constant pool, `getComponentInputIndex`, `getName`, `humanize`, `guid`, `cloneObject`, `path.basename`, and a bitmap's pixel decoding are foreign code. They are function parameters or fields of the scope. So are the style id table (`Project.idCount`), the 16-bit colour conversion that decides a colour's validity (`Project.colorValid`), and the theme-colour lookup that translates an inherited colour (the `themed` parameter of `InheritedValue` and `GetStyleProperty`).
- Array and object literals: the source's check, lowering and editor evaluator have TODO branches for them, which the model follows. The check accepts them, lowering gives no code, and the editor evaluator gives undefined. The stack-discipline lemmas therefore require trees without them.
- Expressions.Infer: the source annotates the tree in place, so a throw leaves the nodes annotated so far. The model returns the fully annotated tree or the error, and does not model that partial annotation.
- JavaScript numbers are modelled as integers. A computation whose JavaScript result is fractional, infinite or NaN, or that needs string-to-number coercion, gives the outcome `NotModelled`. So does a binary operator that coerces a boolean, null or undefined operand: `true - 1` is `NotModelled` in `Operations.BinaryEval`, where JavaScript gives 0, and `+` with such an operand is not modelled either (the unary operators do coerce booleans and null). This covers `Math.sin`, `Math.cos`, `Math.log`, `/` and `%` on doubles, `String.find` (which takes a logarithm), `parseFloat` and `Number.isFinite` beyond integers. `Math.PI` is an opaque number.
- Strings are sequences of Unicode characters, and case mapping covers the ASCII letters only. JavaScript's `toLowerCase` and `toUpperCase` map every cased letter and may change the length ("İ" lower-cases to two code units, "ß" upper-cases to "SS"); `length`, `slice` and `<` count and compare UTF-16 code units, which differs from counting characters above U+FFFF. White space is JavaScript's full set. A number becomes decimal text; the exponent form JavaScript uses from 10^21 in magnitude on is not modelled.
- ToLower: states ASCII lower-casing only; it does not model the Unicode mapping of `toLowerCase` or its changes of length.
- ToUpper: states ASCII upper-casing only; it does not model the Unicode mapping of `toUpperCase` or its changes of length.
- ToLowerIdempotent: is stated for the ASCII mapping only.
- LowerOfUpper: holds for the ASCII mapping only; in JavaScript `"ß".toUpperCase().toLowerCase()` is "ss", not "ß".
- Fold: keeps the length only because case mapping is ASCII; JavaScript's `toLowerCase` of "İ" is two code units.
- PatternCaseIgnored: is stated for the ASCII mapping only; a pattern holding "ß" is prepared differently once upper-cased in JavaScript.
- TextCaseIgnored: is stated for the ASCII mapping only, for the same reason.
- KeybindingCaseInsensitive: is stated for the ASCII mapping only; in JavaScript a binding holding "ß" no longer equals itself once upper-cased.
- BooleanDefault: lower-cases ASCII letters only; the Unicode lower-casing of the default text is not modelled.
- NextChunk: counts characters; `slice(0, 64)` counts UTF-16 code units, so data with characters above U+FFFF is chunked differently.
- StringLessTotal: orders characters by code point; `<` and `sort()` order UTF-16 code units, which differs between characters above U+FFFF and those from U+E000 to U+FFFF.
- Evaluation: JavaScript's loose equality and property access are modelled only for the value kinds in `JsValues`; functions, symbols and prototype lookups are not.
- Checker: `checkExpressionNode` has no case for a structure's field, so `s.x` on a variable is rejected as an unknown constant (Checker.StructFieldRejected). The model keeps that behaviour; a field check by the variable's structure type is not modelled.
- DataContexts: the `JSON.parse` of a variable's default value is modelled only for integers, booleans and strings. The asynchronous `Promise` a `get` may receive is outside the model, and so are `getEnumValue` and `getValueList`.
- Util.FormatNumber: requires a base from 2 to 36, where JavaScript's `toString` would throw a RangeError.
- Console logging, `console.error` of caught throws, and all I/O (downloads, file writes, the SHA-256 check, the serial port's open, close and events) are left out. A caught throw is modelled as its effect on the value only.
- Installer: `getExtraResource` returns `undefined` early when an extension is missing. The model returns the error `ExtensionMissing` at that point instead.
- Flows: object identity is value equality. A clone is the copied value. New wire ids are a parameter sequence, and `borderRadius` coercion in the load hooks is not modelled.
- Search: the generators are functions producing sequences, with `None` for the time-sliced visitor's pause markers. `CurrentSearch`, its scheduling, and the document-store update of `replaceObjectReference` are left out. Text values that are neither strings nor numbers are opaque.
- Draw: `Math.floor` of non-integers, `Uint8ClampedArray` rounding of fractional writes, fonts loaded through `JSON.parse`, canvas drawing, and characters outside the Basic Multilingual Plane are not modelled.
- Plotly: timers, calls into the Plotly library, and DOM element identity are left out; elements are numbers. A line chart's sample is modelled by its value; the `time` field of the input record is not. A gauge value written onto a line chart's record is a field the update never reads, so the model leaves that record unchanged.
- BitmapsBuild: the data buffer's encoding of the records and the array framing `writeArray` adds are left out. An int16 field is recorded as its integer, without 16-bit truncation.
- VariableBuild and BitmapsBuild use the indentation constant and `getName` as parameters. Only their single-line property is assumed of them.
- Serial: `connect`, `destroy` and the port's events are left out; the port is an output log.
- Styles: a style id is an integer or absent; a NaN id, which the as-written id test does report, is not modelled. A number given to `getRect` is an integer or not finite. A fractional number, which JavaScript accepts when it is in range, is not modelled. The string parts are read with `parseInt`, which the model follows for decimal digits.

## Findings

| source | as written | input that shows it | evidently intended | confidence | as-written member | corrected member |
|---|---|---|---|---|---|---|
| packages/project-editor/flow/expression/expression.ts:520-627 | the blocks for binary, logical, unary, conditional and call nodes check their operands but do not return, so control falls through to the final throw | `a + b` with `a`, `b` declared: "Unknown expression node \"BinaryExpression\"" | return after each of these blocks, as the identifier and member blocks do | not executed; high | Checker.AsWrittenRejectsOperators | Checker.CorrectedOperatorCheck |
| packages/project-editor/features/style/style.tsx:706-707 | the id range test `!(id > 0 \|\| id < 32768)` is false for every integer (every number but NaN) | a style with id 0 or 40000 gets no id message | `!(id > 0 && id < 32768)`, reporting ids outside 1..32767 | not executed; high | Styles.IdMessageNeverReported | Styles.IdMessageReported |
| packages/project-editor/flow/expression/expression.ts:975-980 | both evaluators return the `builtInConstants` entry, the record `{ value, valueType }` | `evalConstantExpression("Math.PI")`, which does no inference, hands that record to its caller, while the inner `buildExpressionNode` (expression.ts:806) pushes the number; with nothing named `Math`, inference throws first, so `buildExpression` throws and `evalExpression` gives null | return `buildInConstantValue.value` | not executed; high | Evaluation.ConstantRecordFinding | Evaluation.ConstantFoldingMatchesLowering |
| packages/project-editor/flow/expression/instructions.ts:12-45 | the operand is OR-ed into the word without a range check, so an operand of 8192 or more changes the type bits | pushing constant 8192 gives the word of pushing input 0 | refuse an operand that does not fit the 13-bit field | not executed; medium | Instructions.OverflowAliases | Instructions.EncodeRoundTrip |
| packages/project-editor/flow/widgets/plotly.tsx:429-432 | after the push the oldest sample is dropped when the length equals `maxPoints`, so the buffer holds `maxPoints - 1` samples | `maxPoints` 1: every sample is dropped at once and the chart stays empty | drop only once the length exceeds `maxPoints` | not executed; medium | Plotly.AsWrittenDropsEverything | Plotly.CorrectedWindow |
| packages/project-editor/features/style/style.tsx:925-926 | a negative number gets the message "value must be >= 0 && <= 25" | `-1`, while 100 is accepted | "value must be >= 0 && <= 255", as the string path and the next branch say | not executed; high | Styles.NegativeNumberMessage | Styles.CorrectedNumberCheck |
