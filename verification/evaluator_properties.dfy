/** Properties of the builder and of the validate, transform and compile
    pipeline. */
module EvaluatorProperties {
  import opened Wrappers
  import opened Runtime
  import opened Text
  import opened Syntax
  import opened ExpressionGraph
  import opened ExpressionTransformer
  import opened EvaluatorBuilder

  /** Adding two different names gives the same builder in either order. */
  lemma AddVariableOrderIrrelevant(ev: Evaluator, a: string, va: Option<Value>, b: string, vb: Option<Value>)
    requires a != b && a !in ev.variables && b !in ev.variables
    ensures AddVariable(AddVariable(ev, Some(a), va).builder, Some(b), vb)
         == AddVariable(AddVariable(ev, Some(b), vb).builder, Some(a), va)
  {
    var ab := AddVariable(AddVariable(ev, Some(a), va).builder, Some(b), vb);
    var ba := AddVariable(AddVariable(ev, Some(b), vb).builder, Some(a), va);
    assert ab.builder.variables == ba.builder.variables;
  }

  /** A variable added with a value resolves to a constant of that value. */
  lemma AddedVariableResolves(ev: Evaluator, id: string, v: Value, binder: Binder)
    requires id !in ev.variables
    ensures var after := AddVariable(ev, Some(id), Some(v));
      after.thrown.None?
      && TransformExpr(IdentifierName(id), after.builder.variables, binder) == Ok(Some(Constant(Some(v), TypeOf(v))))
  {
  }

  /** A name added with a null value is taken for good yet never resolves:
      adding it again throws, and using it throws CS0103. */
  lemma NullBindingBlocksName(ev: Evaluator, id: string, later: Option<Value>, binder: Binder)
    requires id !in ev.variables
    ensures var after := AddVariable(ev, Some(id), None).builder;
      && AddVariable(after, Some(id), later) == Configured(after, Some(DuplicateKey(id)))
      && TransformExpr(IdentifierName(id), after.variables, binder) == Err(NameNotFound(id))
  {
  }

  /** Blank code fails with the same exception whatever the parser, so the
      parser is never consulted, and nothing later runs. */
  lemma BlankCodeNeverParsed(ev: Evaluator, kind: DelegateKind, p1: Parser, p2: Parser, binder: Binder, backend: Backend)
    requires IsNullOrWhiteSpace(ev.code)
    ensures EvaluateImpl(ev, kind, p1, binder, backend) == Err(EmptyCode)
    ensures EvaluateImpl(ev, kind, p1, binder, backend) == EvaluateImpl(ev, kind, p2, binder, backend)
  {
  }

  /** A parse with diagnostics reports the first one and never reaches the
      transformer or the compiler: neither the variables, the binder nor
      the backend matter. */
  lemma DiagnosticsStopPipeline(ev: Evaluator, vars: Variables, kind: DelegateKind, parse: Parser,
                                b1: Binder, b2: Binder, c1: Backend, c2: Backend)
    requires !IsNullOrWhiteSpace(ev.code)
    requires |parse(ev.code.value).diagnostics| > 0
    ensures EvaluateImpl(ev, kind, parse, b1, c1) == Err(ParseDiagnostic(parse(ev.code.value).diagnostics[0]))
    ensures EvaluateImpl(ev, kind, parse, b1, c1) == EvaluateImpl(ev.(variables := vars), kind, parse, b2, c2)
  {
  }

  /** A failed transformation never reaches the compiler. */
  lemma TransformFailureNeverCompiles(ev: Evaluator, kind: DelegateKind, parse: Parser, binder: Binder, c1: Backend, c2: Backend)
    requires GetExpressionTransformer(ev, parse).Ok?
    requires Transform(GetExpressionTransformer(ev, parse).value, binder).Err?
    ensures EvaluateImpl(ev, kind, parse, binder, c1) == EvaluateImpl(ev, kind, parse, binder, c2)
  {
  }

  /** The context the builder holds is never read by the pipeline: the
      transformer it builds takes only the statement and the variables. */
  lemma ContextNeverRead(ev: Evaluator, ctx: Option<ExecutionContext>, kind: DelegateKind,
                         parse: Parser, binder: Binder, backend: Backend)
    ensures EvaluateImpl(ev, kind, parse, binder, backend) == EvaluateImpl(ev.(context := ctx), kind, parse, binder, backend)
  {
    assert GetExpressionTransformer(ev, parse) == GetExpressionTransformer(ev.(context := ctx), parse);
  }

  /** `Evaluate<T>()` and `Evaluate()` run the same stages and differ only in
      the delegate type asked of the backend: they fail alike before it, and
      whenever the backend accepts both, they compile the same tree. */
  lemma EvaluateVariantsAgree(ev: Evaluator, t: ClrType, parse: Parser, binder: Binder, backend: Backend)
    ensures var f := Evaluate(ev, t, parse, binder, backend);
      var a := EvaluateAction(ev, parse, binder, backend);
      (f.Ok? && a.Ok? ==> f.value.body == a.value.body)
      && (f.Err? && a.Ok? ==> backend(FuncOf(t), a.value.body).Some?)
      && (a.Err? && f.Ok? ==> backend(ActionDelegate, f.value.body).Some?)
  {
  }

  /** `x + y` with `x = 2` and `y = 3`: the variables become typed `Int32`
      constants and the delegate adds them. */
  lemma AddTwoVariables(code: string, parse: Parser, binder: Binder, backend: Backend)
    requires !IsNullOrWhiteSpace(Some(code))
    requires parse(code) == SyntaxTree([], [ExpressionStatementNode(ExpressionStatement(
      [ExpressionChild(Binary(AddExpression, IdentifierName("x"), IdentifierName("y")))]))])
    requires forall n :: binder(n).None?
    requires forall k, n :: backend(k, n).None?
    ensures var ev := AddVariable(AddVariable(NewEvaluator(Some(code)), Some("x"), Some(Int(2))).builder,
                                  Some("y"), Some(Int(3))).builder;
      Evaluate(ev, Int32, parse, binder, backend)
        == Ok(Delegate(FuncOf(Int32), Arithmetic(Add, Constant(Some(Int(2)), Int32), Constant(Some(Int(3)), Int32))))
  {
    var ev := AddVariable(AddVariable(NewEvaluator(Some(code)), Some("x"), Some(Int(2))).builder,
                          Some("y"), Some(Int(3))).builder;
    var stmt := ExpressionStatement([ExpressionChild(Binary(AddExpression, IdentifierName("x"), IdentifierName("y")))]);
    assert GetExpressionTransformer(ev, parse) == Ok(Transformer(stmt, ev.variables));
  }
}
