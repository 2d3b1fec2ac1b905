/** `Evaluator`: the fluent builder that collects variables and an execution
    context, then validates, parses, transforms and compiles its code. The
    builder's fields are a value here; each configuration call returns the
    builder as it stands afterwards together with the exception it threw,
    if any. */
module EvaluatorBuilder {
  import opened Wrappers
  import opened Runtime
  import opened Text
  import opened Syntax
  import opened ExpressionGraph
  import opened ExpressionTransformer
  import Sequences

  /** The `ExecutionContext` record: the context's type, its value (null for
      a static context) and whether members resolve on the type itself. */
  datatype ExecutionContext = ExecutionContext(ty: ClrType, value: Option<Value>, isStatic: bool)

  /** The builder's fields: the code (possibly null), the variable
      dictionary and the context (null until `SetContext` succeeds). */
  datatype Evaluator = Evaluator(code: Option<string>, variables: Variables, context: Option<ExecutionContext>)

  /** The builder as a configuration call leaves it, and what that call threw. */
  datatype Configured = Configured(builder: Evaluator, thrown: Option<Error>)

  /** The constructor: an empty dictionary and no context. */
  function NewEvaluator(code: Option<string>): (ev: Evaluator)
    ensures ev.code == code && ev.context.None?
    ensures forall id :: id !in ev.variables
  {
    Evaluator(code, map[], None)
  }

  /** `AddVariable`: `Dictionary.Add` semantics. A null name or a name
      already present throws and leaves the builder as it was; otherwise the
      one pair is added (a null value included) and nothing else changes. */
  function AddVariable(ev: Evaluator, identifier: Option<string>, obj: Option<Value>): (r: Configured)
    ensures r.thrown.Some? ==> r.builder == ev
    ensures identifier.None? ==> r.thrown == Some(NullArgument("key"))
    ensures identifier.Some? ==> (r.thrown.None? <==> identifier.value !in ev.variables)
    ensures identifier.Some? && identifier.value in ev.variables ==>
      r.thrown == Some(DuplicateKey(identifier.value))
    ensures r.thrown.None? ==>
      && identifier.Some?
      && r.builder.variables.Keys == ev.variables.Keys + {identifier.value}
      && r.builder.variables[identifier.value] == obj
      && (forall k :: k in ev.variables ==> r.builder.variables[k] == ev.variables[k])
    ensures r.builder.code == ev.code && r.builder.context == ev.context
  {
    match identifier
    case None => Configured(ev, Some(NullArgument("key")))
    case Some(id) =>
      if id in ev.variables then Configured(ev, Some(DuplicateKey(id)))
      else Configured(ev.(variables := ev.variables[id := obj]), None)
  }

  /** `SetContext(Type)`: a static context on the given type, replacing any
      earlier context. */
  function SetContextType(ev: Evaluator, t: Option<ClrType>): (r: Configured)
    ensures t.None? ==> r == Configured(ev, Some(NullStaticContext))
    ensures t.Some? ==> r.thrown.None? && r.builder.context == Some(ExecutionContext(t.value, None, true))
    ensures r.builder.variables == ev.variables && r.builder.code == ev.code
  {
    match t
    case None => Configured(ev, Some(NullStaticContext))
    case Some(ty) => Configured(ev.(context := Some(ExecutionContext(ty, None, true))), None)
  }

  /** `SetContext(object)`: an instance context on the object and its
      run-time type, replacing any earlier context. */
  function SetContextObject(ev: Evaluator, obj: Option<Value>): (r: Configured)
    ensures obj.None? ==> r == Configured(ev, Some(NullInstanceContext))
    ensures obj.Some? ==> r.thrown.None? && r.builder.context == Some(ExecutionContext(TypeOf(obj.value), obj, false))
    ensures r.builder.variables == ev.variables && r.builder.code == ev.code
  {
    match obj
    case None => Configured(ev, Some(NullInstanceContext))
    case Some(v) => Configured(ev.(context := Some(ExecutionContext(TypeOf(v), obj, false))), None)
  }

  /** The argument of either `SetContext` overload. */
  datatype ContextArgument = TypeArgument(t: Option<ClrType>) | ObjectArgument(obj: Option<Value>)

  function SetContext(ev: Evaluator, a: ContextArgument): Configured
  {
    match a
    case TypeArgument(t) => SetContextType(ev, t)
    case ObjectArgument(o) => SetContextObject(ev, o)
  }

  /** The last successful `SetContext` decides the context alone, whichever
      overloads were used, and no `SetContext` touches the variables. */
  lemma LastSetContextWins(ev: Evaluator, first: ContextArgument, second: ContextArgument)
    ensures var after := SetContext(SetContext(ev, first).builder, second);
      after.thrown.None? ==>
        after.builder.context == SetContext(ev, second).builder.context
        && after.builder.variables == ev.variables
  {
  }

  /** `ValidateCode`: null, empty or white-space code is refused before the
      parser runs; otherwise the first diagnostic, if any, is thrown. */
  function ValidateCode(code: Option<string>, parse: Parser): (r: Result<SyntaxTree, Error>)
    ensures r == Err(EmptyCode) <==> IsNullOrWhiteSpace(code)
    ensures !IsNullOrWhiteSpace(code) ==> (r.Ok? <==> |parse(code.value).diagnostics| == 0)
    ensures !IsNullOrWhiteSpace(code) && r.Ok? ==> r.value == parse(code.value)
    ensures !IsNullOrWhiteSpace(code) && r.Err? ==> r.error == ParseDiagnostic(parse(code.value).diagnostics[0])
  {
    if IsNullOrWhiteSpace(code) then Err(EmptyCode)
    else
      var tree := parse(code.value);
      if |tree.diagnostics| > 0 then Err(ParseDiagnostic(tree.diagnostics[0])) else Ok(tree)
  }

  /** `GetExpressionTransformer`: a transformer over the first expression
      statement among the tree's descendants, sharing the builder's
      variables. The builder's context is not handed on. */
  function GetExpressionTransformer(ev: Evaluator, parse: Parser): (r: Result<Transformer, Error>)
    ensures ValidateCode(ev.code, parse).Err? ==> r == Err(ValidateCode(ev.code, parse).error)
    ensures r.Ok? ==> ValidateCode(ev.code, parse).Ok? && r.value.variables == ev.variables
    ensures r.Ok? ==> var ds := ValidateCode(ev.code, parse).value.descendants;
      exists k :: 0 <= k < |ds| && ds[k] == ExpressionStatementNode(r.value.expr)
        && forall j :: 0 <= j < k ==> !ds[j].ExpressionStatementNode?
    ensures ValidateCode(ev.code, parse).Ok? ==>
      (r == Err(NoElements) <==>
        forall j :: 0 <= j < |ValidateCode(ev.code, parse).value.descendants| ==>
          !ValidateCode(ev.code, parse).value.descendants[j].ExpressionStatementNode?)
    ensures ValidateCode(ev.code, parse).Ok? ==>
      (exists j :: 0 <= j < |ValidateCode(ev.code, parse).value.descendants| &&
        ValidateCode(ev.code, parse).value.descendants[j].ExpressionStatementNode?) ==> r.Ok?
  {
    var tree :- ValidateCode(ev.code, parse);
    match Sequences.FirstIndex(tree.descendants, IsExpressionStatement)
    case None => Err(NoElements)
    case Some(k) => Ok(Transformer(tree.descendants[k].statement, ev.variables))
  }

  /** The delegate type requested: `Func<T>` or `Action`. */
  datatype DelegateKind = FuncOf(result: ClrType) | ActionDelegate

  /** A compiled delegate, identified by its kind and the tree it runs. */
  datatype Delegate = Delegate(kind: DelegateKind, body: Node)

  /** `Expression.Lambda<T>(body)` followed by `Compile()` on a non-null
      body: `None` when the body is accepted for that delegate type,
      otherwise the exception thrown. */
  type Backend = (DelegateKind, Node) -> Option<Error>

  /** `EvaluateImpl<T>`: validate, select the statement, transform, then
      compile. A stage runs only if every earlier one succeeded; a
      transformation that yields no node is refused by `Expression.Lambda`. */
  function EvaluateImpl(ev: Evaluator, kind: DelegateKind, parse: Parser, binder: Binder, backend: Backend): (r: Result<Delegate, Error>)
    ensures GetExpressionTransformer(ev, parse).Err? ==> r == Err(GetExpressionTransformer(ev, parse).error)
    ensures GetExpressionTransformer(ev, parse).Ok? && Transform(GetExpressionTransformer(ev, parse).value, binder).Err? ==>
      r == Err(Transform(GetExpressionTransformer(ev, parse).value, binder).error)
    ensures GetExpressionTransformer(ev, parse).Ok? && Transform(GetExpressionTransformer(ev, parse).value, binder) == Ok(None) ==>
      r == Err(NullArgument("body"))
    ensures r.Ok? ==>
      && r.value.kind == kind
      && GetExpressionTransformer(ev, parse).Ok?
      && Transform(GetExpressionTransformer(ev, parse).value, binder) == Ok(Some(r.value.body))
      && backend(kind, r.value.body).None?
    ensures forall n :: GetExpressionTransformer(ev, parse).Ok? && Transform(GetExpressionTransformer(ev, parse).value, binder) == Ok(Some(n)) ==>
      r == (if backend(kind, n).None? then Ok(Delegate(kind, n)) else Err(backend(kind, n).value))
  {
    var transformer :- GetExpressionTransformer(ev, parse);
    var body :- Transform(transformer, binder);
    match body
    case None => Err(NullArgument("body"))
    case Some(n) =>
      match backend(kind, n)
      case None => Ok(Delegate(kind, n))
      case Some(e) => Err(e)
  }

  /** `Evaluate<T>()`. */
  function Evaluate(ev: Evaluator, resultType: ClrType, parse: Parser, binder: Binder, backend: Backend): (r: Result<Delegate, Error>)
    ensures r.Ok? ==> r.value.kind == FuncOf(resultType)
  {
    EvaluateImpl(ev, FuncOf(resultType), parse, binder, backend)
  }

  /** `Evaluate()`, the `Action` variant. */
  function EvaluateAction(ev: Evaluator, parse: Parser, binder: Binder, backend: Backend): (r: Result<Delegate, Error>)
    ensures r.Ok? ==> r.value.kind == ActionDelegate
  {
    EvaluateImpl(ev, ActionDelegate, parse, binder, backend)
  }
}
