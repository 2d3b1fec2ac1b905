# cs-eval expression transformer and evaluator builder, in Dafny

This project models the core of `Eval.Csharp`, a small library that turns one
C# expression statement into a compiled delegate. Two parts are modelled:

- **`ExpressionTransformer`**. It walks the Roslyn syntax of the statement's first
  expression. It dispatches on the node type (literal, binary, identifier,
  member access, invocation) and builds a `System.Linq.Expressions` tree. The
  first exception stops it.
- **`Evaluator`**. This fluent builder collects variables and an execution
  context. It then runs validate → select statement → transform → compile, and
  each stage runs only if every earlier stage succeeded.

The model is functional. Syntax trees (`Syntax.Expr`), expression trees
(`ExpressionGraph.Node`) and the builder (`EvaluatorBuilder.Evaluator`) are
immutable datatypes. Every operation that can throw returns
`Result<T, Error>`, where `Err` is a thrown exception; the builder calls
(`AddVariable`, `SetContext`) return `Configured`, the builder together with
the exception, if any, the call threw. `Runtime.Error` has one constructor per
kind of exception, with the parameter or key telling the throwing sites apart
where it can, and `Runtime.Message` gives the message text.

The library's collaborators become parameters:

- `Parser`: Roslyn's `ParseText`. It gives the diagnostics and the descendant nodes.
- `Binder`: the reflection checks inside `Expression.Add`, `Subtract`,
  `Multiply`, `Divide`, `PropertyOrField` and `Call`, such as operand types and
  whether a member or method exists.
- `Backend`: `Expression.Lambda<T>` plus `Compile`.

The model does handle the null checks those factories make before any
reflection (except `Call`'s arguments, see Left out). An operand that is a C#
null `Expression` throws `ArgumentNullException`.

Files:
- `wrappers.dfy`: `Option` and `Result`.
- `sequences.dfy`: `OfType().First()`.
- `runtime.dfy`: `Int32`, values, `GetType`, exceptions and messages.
- `int32_parse.dfy`: `int.Parse`.
- `text.dfy`: `TrimStart`, `TrimEnd` and `IsNullOrWhiteSpace`.
- `syntax.dfy`: syntax nodes.
- `expression_graph.dfy`: expression nodes and factories.
- `expression_transformer.dfy`: the transformer.
- `transformer_properties.dfy`: properties of the whole transformation.
- `evaluator.dfy`: the builder and the pipeline.
- `evaluator_properties.dfy`: properties of the builder and the pipeline.

Points of the code's behaviour worth knowing before reading the model:
- String and character literals lose *all* leading and trailing quotes
  (`TrimStart`/`TrimEnd` drop every repeated character), not just one.
- A binary operator other than `+ - * /`, and a literal kind other than the six
  handled ones, give no node (a C# null) rather than an exception. Such a null
  makes the next factory or `Expression.Lambda` throw `ArgumentNullException`,
  unless an exception from a later operand, a later argument, the callee's
  shape or the call's target comes first.
- Identifiers are looked up only in the variables. `ExpressionTransformer.cs`
  has no self-reference, no static-member lookup and no context.
  `Evaluator.cs:69` calls a three-argument constructor that does not exist. The
  model builds the transformer from the statement and the variables, and keeps
  the context as builder state that nothing reads (`ContextNeverRead`).
- The `false` literal yields `true` in the code. This is listed under Findings:
  `TransformLiteralAsWritten` is the rule as written, and the transformer uses
  the corrected rule `TransformLiteral`.

## Model

| member | source | states |
|---|---|---|
| `Sequences.FirstIndex` | src/Eval.Csharp/Evaluator.cs:64-67 | the position of the first element of the wanted kind: every earlier element is of another kind; `None` exactly when no element is of that kind, which is when `First()` throws |
| `Runtime.TypeOf` | src/Eval.Csharp/ExpressionTransformer.cs:71 | in this model only the null constant is typed `object`: `GetType()` of a non-null value is one of the built-in types for a built-in value, and for an object exactly the type named by its full name |
| `Runtime.NameNotFoundMessage` | src/Eval.Csharp/ExpressionTransformer.cs:69 | the CS0103 message is the fixed prefix, the identifier, then the fixed suffix |
| `Runtime.NameNotFoundMessageNamesIdentifier` | src/Eval.Csharp/ExpressionTransformer.cs:69 | the identifier can be read back out of the CS0103 message |
| `Runtime.Message` | src/Eval.Csharp/Evaluator.cs:33-51 | the library's own texts (blank code, the two null contexts here, CS0103 and "Unsupported Expression" at ExpressionTransformer.cs:69, :96 and :114) are its string literals, with CS0103 naming the identifier; a parse failure carries the diagnostic's text and a reflection failure its own reason; framework texts are representative |
| `Runtime.LibraryMessagesDistinct` | src/Eval.Csharp/Evaluator.cs:33-51 | the library's own exceptions never share a message: the blank code and the null static and instance contexts here, and CS0103 for each identifier and "Unsupported Expression" at ExpressionTransformer.cs:69, :96 and :114 |
| `Runtime.NameNotFoundMessageInjective` | src/Eval.Csharp/ExpressionTransformer.cs:69 | different identifiers give different CS0103 messages |
| `Int32Parse.Accumulate` | src/Eval.Csharp/ExpressionTransformer.cs:28 | reading digits left to right and stopping once the running value passes the limit succeeds exactly when the whole number is within the limit, and then yields that number |
| `Int32Parse.ParseInt32` | src/Eval.Csharp/ExpressionTransformer.cs:28 | `int.Parse` succeeds exactly on an optional sign plus at least one digit whose value is in [-2^31, 2^31-1], and returns that value; anything else that is not a number throws `FormatException`; a number outside the range throws `OverflowException` |
| `Int32Parse.ParseFormatRoundTrip` | src/Eval.Csharp/ExpressionTransformer.cs:28 | writing any `Int32` in decimal and parsing the text gives the same `Int32` back |
| `Int32Parse.PositiveOverflow` | src/Eval.Csharp/ExpressionTransformer.cs:28 | digits above 2^31-1 throw `OverflowException` |
| `Int32Parse.NegativeOverflow` | src/Eval.Csharp/ExpressionTransformer.cs:28 | `-` followed by digits above 2^31 throws `OverflowException` |
| `Text.TrimStart` | src/Eval.Csharp/ExpressionTransformer.cs:30 | the result is a suffix of the input that does not start with the character, and everything removed is that character |
| `Text.TrimEnd` | src/Eval.Csharp/ExpressionTransformer.cs:30 | the result is a prefix of the input that does not end with the character, and everything removed is that character |
| `Text.TrimStartDropsLeadingCount` | src/Eval.Csharp/ExpressionTransformer.cs:30 | `TrimStart(c)` leaves exactly the text after the leading run of `c` |
| `Text.Trim` | src/Eval.Csharp/ExpressionTransformer.cs:30-32 | `TrimStart(c).TrimEnd(c)` gives the infix that begins after all the leading `c`, is followed only by `c`, and neither starts nor ends with `c`; it is empty exactly when the text is all `c` |
| `Text.IsWhiteSpace` | src/Eval.Csharp/Evaluator.cs:50 | space, tab, line feed and carriage return are white space; ASCII letters and digits, the zero-width space U+200B and the byte-order mark U+FEFF are not; no character above U+3000 is |
| `Text.IsNullOrWhiteSpace` | src/Eval.Csharp/Evaluator.cs:50 | null and the empty string count as blank; any other string is blank exactly when a search for its first non-white-space character finds none |
| `Text.TrimUnwraps` | src/Eval.Csharp/ExpressionTransformer.cs:30 | wrapping a text in any number of `c` on each side and then trimming gives the text back, provided it neither starts nor ends with `c` |
| `ExpressionGraph.MakeArithmetic` | src/Eval.Csharp/ExpressionTransformer.cs:48-55 | `Expression.Add` and the others throw `ArgumentNullException` for a null left operand, then for a null right one; with both present they succeed exactly when reflection accepts the node, and otherwise throw what reflection throws; on success the node keeps the operator and both operands |
| `ExpressionGraph.MakePropertyOrField` | src/Eval.Csharp/ExpressionTransformer.cs:76 | a null target throws `ArgumentNullException`; with a target it succeeds exactly when reflection finds the member, and otherwise throws what reflection throws; on success the node reads the named member of the target |
| `ExpressionGraph.MakeCall` | src/Eval.Csharp/ExpressionTransformer.cs:93 | a null instance throws first, then any null argument; with all present it succeeds exactly when reflection finds the method, and otherwise throws what reflection throws; on success the call keeps the instance, the method name and the arguments in order |
| `ExpressionTransformer.Lookup` | src/Eval.Csharp/ExpressionTransformer.cs:65-66 | `TryGetValue` leaves a value exactly when the name is present and bound to a non-null value, and the value is the bound one; a missing name and a null binding both leave null |
| `ExpressionTransformer.NewTransformer` | src/Eval.Csharp/ExpressionTransformer.cs:14 | the one-argument constructor keeps the statement and binds no name |
| `ExpressionTransformer.DecodeCharLiteral` | src/Eval.Csharp/ExpressionTransformer.cs:32 | the character is the first one that is not a `'`; a text made only of `'` throws `IndexOutOfRangeException` |
| `ExpressionTransformer.TransformLiteral` | src/Eval.Csharp/ExpressionTransformer.cs:22-42 | numbers are `Int32` constants equal to the value of the text when it is an integer in range, and otherwise throw what `int.Parse` throws (`FormatException` or `OverflowException`). `null` is the `object`-typed null constant. Strings are the text with all surrounding `"` removed and escapes untouched. Characters are the first character that is not a `'`. Booleans have their own truth value (corrected, see Findings). An unknown literal kind gives no node. It throws exactly for a number `int.Parse` rejects or a character literal made only of quotes, the latter with `IndexOutOfRangeException` |
| `ExpressionTransformer.LiteralConstantsWellTyped` | src/Eval.Csharp/ExpressionTransformer.cs:27-38 | every constant the literal rule builds is typed by its value, `null` as `object` |
| `ExpressionTransformer.TransformLiteralAsWritten` | src/Eval.Csharp/ExpressionTransformer.cs:22-42 | the switch exactly as shipped: it gives no node exactly for an unknown literal kind, and throws exactly when `int.Parse` rejects a number (its exception) or a character literal has no character left after trimming (`IndexOutOfRangeException`) |
| `ExpressionTransformer.AsWrittenConstantsWellTyped` | src/Eval.Csharp/ExpressionTransformer.cs:27-38 | every constant the shipped switch builds is typed by its value as well |
| `ExpressionTransformer.LiteralRulesAgreeExceptFalse` | src/Eval.Csharp/ExpressionTransformer.cs:33-36 | the shipped literal rule agrees with the corrected one on a literal exactly when its kind is not `false` |
| `ExpressionTransformer.FalseLiteralAsWrittenIsTrue` | src/Eval.Csharp/ExpressionTransformer.cs:35-36 | the shipped rule turns the `false` literal into the constant `true`, which differs from the corrected rule |
| `ExpressionTransformer.StringLiteralUnwraps` | src/Eval.Csharp/ExpressionTransformer.cs:29-30 | a string literal with any number of `"` on each side yields exactly its inner text |
| `ExpressionTransformer.CharLiteralRoundTrip` | src/Eval.Csharp/ExpressionTransformer.cs:31-32 | `'c'` yields the `char` constant `c` for every `c` other than `'` |
| `ExpressionTransformer.NumericLiteralRoundTrip` | src/Eval.Csharp/ExpressionTransformer.cs:27-28 | the decimal text of any `Int32` yields the `Int32` constant of that value |
| `ExpressionTransformer.TransformIdentifier` | src/Eval.Csharp/ExpressionTransformer.cs:61-72 | it succeeds exactly when the name is bound to a non-null value, giving a constant of that value typed by its run-time type; an unbound name and a name bound to null both throw CS0103 naming the identifier |
| `ExpressionTransformer.TransformExpr` | src/Eval.Csharp/ExpressionTransformer.cs:99-116 | a node type outside the five handled ones throws "Unsupported Expression" |
| `ExpressionTransformer.ArithOpOf` | src/Eval.Csharp/ExpressionTransformer.cs:46-57 | `+`, `-`, `*` and `/` each select their own factory, and every other binary kind selects none |
| `ExpressionTransformer.TransformBinary` | src/Eval.Csharp/ExpressionTransformer.cs:44-59 | an operator other than `+ - * /` gives no node without transforming its operands. For the four it handles, a failing left operand decides the result before the right one is looked at, then a failing right operand does. Once both operands transform, the result is what the factory gives for them: `ArgumentNullException` for an operand that gave no node, reflection's verdict otherwise. A success is a node with the same operator over the transformed left and right operands |
| `ExpressionTransformer.TransformMemberAccess` | src/Eval.Csharp/ExpressionTransformer.cs:74-77 | a failing target decides the result; otherwise the result is what `PropertyOrField` gives for the transformed target and the member name, so a target that gave no node throws `ArgumentNullException` and reflection decides the rest; a success reads the named member of the transformed target |
| `ExpressionTransformer.IsMethodCallee` | src/Eval.Csharp/ExpressionTransformer.cs:89 | only a member access is accepted as callee: `a.m` is, `a->m` is not |
| `ExpressionTransformer.TransformInvocation` | src/Eval.Csharp/ExpressionTransformer.cs:79-97 | a failing argument decides the result before the callee is examined. If every argument succeeds, a callee other than `a.m` throws "Unsupported Expression". Otherwise a failing target `a` decides the result, and once it transforms the result is what `Expression.Call` gives for the transformed `a`, the name `m` and the transformed arguments. A success is a call of method `m` on the transformed `a` whose arguments are the transformed arguments, as many and in the same order |
| `ExpressionTransformer.TransformArgs` | src/Eval.Csharp/ExpressionTransformer.cs:81-86 | a successful argument loop yields one slot per argument |
| `ExpressionTransformer.Transform` | src/Eval.Csharp/ExpressionTransformer.cs:118-121 | a statement with no expression child throws the `First()` exception |
| `TransformerProperties.ArgsLeftToRight` | src/Eval.Csharp/ExpressionTransformer.cs:81-86 | the argument loop succeeds exactly when every argument transforms, with the i-th slot being the i-th argument's result. Otherwise it reports the error of the first argument that fails, every earlier one having succeeded |
| `TransformerProperties.ArgsReportFirstError` | src/Eval.Csharp/ExpressionTransformer.cs:85-86 | when every argument before the k-th transforms and the k-th throws, the argument loop throws the k-th argument's exception |
| `TransformerProperties.ArgumentErrorsPrecedeCalleeShape` | src/Eval.Csharp/ExpressionTransformer.cs:85-96 | whatever the callee's shape, an invocation reports the first failing argument's exception |
| `TransformerProperties.TransformMirrors` | src/Eval.Csharp/ExpressionTransformer.cs:99-116 | any node the transformer builds mirrors its input. Literals become the constant the literal rule gives them, and identifiers become the constant bound to them. Operators, member names and method names are kept, and arguments keep their count and order |
| `TransformerProperties.InvocationMirrors` | src/Eval.Csharp/ExpressionTransformer.cs:79-97 | a successful invocation is a call on the mirrored target with the mirrored arguments in order |
| `TransformerProperties.NoNodeOnlyFromUnknownKinds` | src/Eval.Csharp/ExpressionTransformer.cs:22-59 | the transformer returns no node exactly for an unknown literal kind or a binary operator other than `+ - * /` |
| `TransformerProperties.TransformReadsOnlyItsNames` | src/Eval.Csharp/ExpressionTransformer.cs:61-72 | two variable maps that agree on the expression's identifiers, counting a null binding as absent, give the same result |
| `TransformerProperties.ArgsReadOnlyTheirNames` | src/Eval.Csharp/ExpressionTransformer.cs:81-86 | the same for an argument list |
| `TransformerProperties.TransformUsesFirstExpressionChild` | src/Eval.Csharp/ExpressionTransformer.cs:120 | `Transform()` transforms the first expression child of the statement and ignores everything after it |
| `EvaluatorBuilder.NewEvaluator` | src/Eval.Csharp/Evaluator.cs:18-22 | a new builder keeps its code and has no variables and no context |
| `EvaluatorBuilder.AddVariable` | src/Eval.Csharp/Evaluator.cs:24-28 | a null name throws `ArgumentNullException`, and a name already present throws `ArgumentException`; either way the builder is unchanged. Otherwise exactly that one pair is added, null values included, and code and context are untouched |
| `EvaluatorBuilder.SetContextType` | src/Eval.Csharp/Evaluator.cs:30-37 | null throws; otherwise the context becomes exactly {type, null value, static}; variables and code are untouched |
| `EvaluatorBuilder.SetContextObject` | src/Eval.Csharp/Evaluator.cs:39-46 | null throws; otherwise the context becomes exactly {run-time type of the object, the object, not static}; variables and code are untouched |
| `EvaluatorBuilder.LastSetContextWins` | src/Eval.Csharp/Evaluator.cs:35-44 | after two `SetContext` calls, of either overload, where the second succeeds, the context is what the second alone would give and the variables are as before |
| `EvaluatorBuilder.ValidateCode` | src/Eval.Csharp/Evaluator.cs:48-60 | null, empty or all-white-space code, and nothing else, throws "Code cannot be empty or null". Otherwise validation succeeds exactly when the parser reports no diagnostic and returns the parsed tree, and it fails with the first diagnostic when there is one |
| `EvaluatorBuilder.GetExpressionTransformer` | src/Eval.Csharp/Evaluator.cs:62-71 | a validation failure is passed on. Otherwise the transformer works on the first expression statement among the descendants and shares the builder's variables. `First()` throws exactly when no descendant is an expression statement, and a valid tree with an expression statement always gives a transformer |
| `EvaluatorBuilder.EvaluateImpl` | src/Eval.Csharp/Evaluator.cs:73-78 | a failure at any stage is the result and no later stage runs; a transformation that yields no node fails in `Expression.Lambda`; a delegate is returned only when every stage succeeded and the backend accepted the transformed tree; when the transformation yields a node, the result is that node's delegate if the backend accepts it and the backend's exception otherwise |
| `EvaluatorBuilder.Evaluate` | src/Eval.Csharp/Evaluator.cs:80 | a delegate returned by `Evaluate<T>` is a `Func<T>` |
| `EvaluatorBuilder.EvaluateAction` | src/Eval.Csharp/Evaluator.cs:82 | a delegate returned by `Evaluate()` is an `Action` |
| `EvaluatorProperties.AddVariableOrderIrrelevant` | src/Eval.Csharp/Evaluator.cs:24-28 | adding two different names gives the same builder in either order |
| `EvaluatorProperties.AddedVariableResolves` | src/Eval.Csharp/Evaluator.cs:24-28 | a name added with a value resolves to a constant of that value and its run-time type |
| `EvaluatorProperties.NullBindingBlocksName` | src/Eval.Csharp/ExpressionTransformer.cs:65-69 | once a name is added with a null value, adding it again throws and using it throws CS0103 |
| `EvaluatorProperties.BlankCodeNeverParsed` | src/Eval.Csharp/Evaluator.cs:50-53 | blank code fails with "Code cannot be empty or null" whatever the parser does |
| `EvaluatorProperties.DiagnosticsStopPipeline` | src/Eval.Csharp/Evaluator.cs:53-57 | a parse with diagnostics fails with the first one, whatever the variables, the reflection and the compiler do |
| `EvaluatorProperties.TransformFailureNeverCompiles` | src/Eval.Csharp/Evaluator.cs:75-77 | a failed transformation gives the same result whatever the compiler does |
| `EvaluatorProperties.ContextNeverRead` | src/Eval.Csharp/Evaluator.cs:62-71 | the pipeline's result does not depend on the builder's context |
| `EvaluatorProperties.EvaluateVariantsAgree` | src/Eval.Csharp/Evaluator.cs:80-82 | `Evaluate<T>()` and `Evaluate()` compile the same tree when both succeed; when only one succeeds, the backend refused the other delegate type |
| `EvaluatorProperties.AddTwoVariables` | src/Eval.Csharp/Evaluator.cs:73-80 | `x + y` with `x = 2` and `y = 3` compiles to the addition of the `Int32` constants 2 and 3 |

## Left out

- Roslyn parsing (`ParseText`, `GetDiagnostics`, `DescendantNodes`, `ChildNodes`) is the `Parser` parameter. Syntax trees are given in their already-parsed form.
- `GetText()` trivia: a literal's text is taken to be its bare token.
- The reflection checks inside the expression factories are the `Binder` parameter. These are operand type compatibility, member lookup and method overload lookup. So are the static types of `PropertyOrField` and `Call` nodes, which come from that lookup.
- `Expression.Lambda<T>`, `Compile` and running the delegate are the `Backend` parameter. So are run-time overflow and division by zero in the compiled code.
- ExpressionGraph.MakeCall: a null argument is reported as `ArgumentNullException`. `Expression.Call` throws that only after finding a candidate with the right number of parameters, and otherwise throws `InvalidOperationException`; the model does not tell these apart.
- Int32Parse.ParseInt32: leading and trailing white space, trailing NUL characters and culture-specific sign symbols, all accepted by `int.Parse`, are not modelled. A numeric literal token never contains them.
- Runtime.Message: the framework's own exception messages are given in a representative form, not culture by culture.
- `src/Eval.Csharp/Eval.cs`: a placeholder. Its `Evaluate` ignores its code, and its `AddVariable` repeats `Evaluator.AddVariable`.
- The context handed to the three-argument transformer constructor at `Evaluator.cs:69` is dropped, because no such constructor is part of this model.
- Unary operators, assignments, object creation, the exported-type registry, `this`, static member lookup, comparison, logical and coalescing operators, and static calls on the context: `ExpressionTransformer.cs` handles none of them.
- ExpressionTransformer.TransformExpr: uses the corrected literal rule, so the `false` literal becomes the constant `false`; the code as written turns it into `true` (`TransformLiteralAsWritten`, see Findings).
- Runtime.TypeOf: an object whose type is a built-in one, such as `Instance("System.Int32", h)` or `Instance("System.Object", h)`, is a second encoding of a value the other constructors already cover, and is typed `Named(..)` rather than `Int32` or `Object`; the model does not rule such names out.
- Runtime.Value: Dafny characters and strings are Unicode scalar values, while C# `char` and `string` are UTF-16 code units, so a lone surrogate in a literal or a variable cannot be represented.
- Thread safety of the builder, and the mutable sharing of the variable dictionary between builder and transformer: every value here is immutable.

## Findings

| source | as written | input that shows it | evidently intended | confidence | as-written member | corrected member |
|---|---|---|---|---|---|---|
| src/Eval.Csharp/ExpressionTransformer.cs:35-36 | `FalseLiteralExpression` yields `Expression.Constant(true, typeof(bool))` | the code `false` | the constant `false` | high; not executed | `ExpressionTransformer.FalseLiteralAsWrittenIsTrue` | `ExpressionTransformer.TransformLiteral` |
