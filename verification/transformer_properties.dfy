/** Properties of the whole transformation: what the built graph looks
    like, which inputs it depends on, and in which order failures are
    reported. */
module TransformerProperties {
  import opened Wrappers
  import opened Runtime
  import opened Syntax
  import opened ExpressionGraph
  import opened ExpressionTransformer
  import Sequences

  /** `n` is a faithful image of `e`: every literal is the constant the
      literal rule gives it (typed by its value), every identifier the
      constant it is bound to, operators, member names and method names are
      kept, arguments keep count and order. */
  ghost predicate Mirrors(e: Expr, n: Node, vars: Variables)
    decreases e
  {
    match e
    case Literal(k, t) => TransformLiteral(k, t) == Ok(Some(n))
    case Binary(op, l, r) =>
      && n.Arithmetic? && ArithOpOf(op) == Some(n.op)
      && Mirrors(l, n.left, vars) && Mirrors(r, n.right, vars)
    case IdentifierName(id) =>
      Lookup(vars, id).Some? && n == Constant(Lookup(vars, id), TypeOf(Lookup(vars, id).value))
    case MemberAccess(_, t, name) =>
      n.PropertyOrField? && n.member == name && Mirrors(t, n.target, vars)
    case Invocation(c, args) =>
      && IsMethodCallee(c) && n.Call? && n.methodName == c.name
      && Mirrors(c.target, n.instance, vars)
      && |n.args| == |args|
      && forall i :: 0 <= i < |args| ==> Mirrors(args[i], n.args[i], vars)
    case OtherSyntax(_) => false
  }

  /** The argument loop transforms each argument on its own, in order; it
      succeeds exactly when every argument does, and otherwise reports the
      exception of the first argument that fails. */
  lemma {:induction false} ArgsLeftToRight(args: seq<Expr>, vars: Variables, binder: Binder)
    ensures TransformArgs(args, vars, binder).Ok? <==>
      forall i :: 0 <= i < |args| ==> TransformExpr(args[i], vars, binder).Ok?
    ensures TransformArgs(args, vars, binder).Ok? ==>
      forall i :: 0 <= i < |args| ==> TransformExpr(args[i], vars, binder) == Ok(TransformArgs(args, vars, binder).value[i])
    ensures TransformArgs(args, vars, binder).Err? ==>
      exists k :: 0 <= k < |args|
        && TransformExpr(args[k], vars, binder) == Err(TransformArgs(args, vars, binder).error)
        && forall j :: 0 <= j < k ==> TransformExpr(args[j], vars, binder).Ok?
    decreases args
  {
    if |args| > 0 {
      var tail := args[1..];
      ArgsLeftToRight(tail, vars, binder);
      assert forall i :: 1 <= i < |args| ==> args[i] == tail[i - 1];
      var r := TransformArgs(args, vars, binder);
      if TransformExpr(args[0], vars, binder).Ok? && TransformArgs(tail, vars, binder).Err? {
        var k :| 0 <= k < |tail|
          && TransformExpr(tail[k], vars, binder) == Err(TransformArgs(tail, vars, binder).error)
          && forall j :: 0 <= j < k ==> TransformExpr(tail[j], vars, binder).Ok?;
        assert TransformExpr(args[k + 1], vars, binder) == Err(r.error);
      }
    }
  }

  /** The argument loop reports the exception of the first failing argument. */
  lemma ArgsReportFirstError(args: seq<Expr>, vars: Variables, binder: Binder, k: nat)
    requires k < |args| && TransformExpr(args[k], vars, binder).Err?
    requires forall j :: 0 <= j < k ==> TransformExpr(args[j], vars, binder).Ok?
    ensures TransformArgs(args, vars, binder) == Err(TransformExpr(args[k], vars, binder).error)
  {
    ArgsLeftToRight(args, vars, binder);
    var r := TransformArgs(args, vars, binder);
    assert r.Err?;
    var k' :| 0 <= k' < |args|
      && TransformExpr(args[k'], vars, binder) == Err(r.error)
      && forall j :: 0 <= j < k' ==> TransformExpr(args[j], vars, binder).Ok?;
    assert k' == k;
  }

  /** An argument's exception is reported even when the callee has a shape
      the rule refuses: arguments come first. */
  lemma ArgumentErrorsPrecedeCalleeShape(callee: Expr, args: seq<Expr>, vars: Variables, binder: Binder, k: nat)
    requires k < |args| && TransformExpr(args[k], vars, binder).Err?
    requires forall j :: 0 <= j < k ==> TransformExpr(args[j], vars, binder).Ok?
    ensures TransformExpr(Invocation(callee, args), vars, binder) == Err(TransformExpr(args[k], vars, binder).error)
  {
    ArgsReportFirstError(args, vars, binder, k);
    var e := Invocation(callee, args);
    assert TransformExpr(e, vars, binder) == TransformInvocation(e, vars, binder);
  }

  /** Whatever the transformer builds mirrors its input. */
  lemma {:induction false} TransformMirrors(e: Expr, vars: Variables, binder: Binder)
    ensures TransformExpr(e, vars, binder).Ok? && TransformExpr(e, vars, binder).value.Some? ==>
      Mirrors(e, TransformExpr(e, vars, binder).value.value, vars)
    decreases e
  {
    match e
    case Literal(_, _) =>
    case Binary(_, l, rt) =>
      TransformMirrors(l, vars, binder);
      TransformMirrors(rt, vars, binder);
    case IdentifierName(_) =>
    case MemberAccess(_, t, _) =>
      TransformMirrors(t, vars, binder);
    case Invocation(c, args) =>
      var r := TransformInvocation(e, vars, binder);
      if r.Ok? {
        TransformMirrors(c.target, vars, binder);
        forall i | 0 <= i < |args| {
          TransformMirrors(args[i], vars, binder);
        }
        InvocationMirrors(e, vars, binder);
      }
    case OtherSyntax(_) =>
  }

  /** The invocation step of `TransformMirrors`, given that the callee's
      target and every argument already mirror their images. */
  lemma InvocationMirrors(e: Expr, vars: Variables, binder: Binder)
    requires e.Invocation? && TransformInvocation(e, vars, binder).Ok?
    requires forall i :: 0 <= i < |e.arguments| ==>
      var a := TransformExpr(e.arguments[i], vars, binder);
      a.Ok? && a.value.Some? ==> Mirrors(e.arguments[i], a.value.value, vars)
    requires var t := TransformExpr(e.callee.target, vars, binder);
      t.Ok? && t.value.Some? ==> Mirrors(e.callee.target, t.value.value, vars)
    ensures Mirrors(e, TransformInvocation(e, vars, binder).value.value, vars)
  {
    var n := TransformInvocation(e, vars, binder).value.value;
    ArgsLeftToRight(e.arguments, vars, binder);
    var slots := TransformArgs(e.arguments, vars, binder).value;
    assert forall i :: 0 <= i < |e.arguments| ==> slots[i] == Some(n.args[i]);
    assert forall i :: 0 <= i < |e.arguments| ==> Mirrors(e.arguments[i], n.args[i], vars);
  }

  /** The transformer returns no node (a C# null) exactly for a literal kind
      or a binary operator it does not know; every other success is a node. */
  lemma NoNodeOnlyFromUnknownKinds(e: Expr, vars: Variables, binder: Binder)
    ensures TransformExpr(e, vars, binder) == Ok(None) <==>
      (e.Literal? && e.kind.OtherLiteral?) || (e.Binary? && ArithOpOf(e.op).None?)
  {
  }

  /** The transformer reads the variables only at the identifiers occurring
      in the expression, and cannot tell a missing name from one bound to
      null. */
  lemma {:induction false} TransformReadsOnlyItsNames(e: Expr, v1: Variables, v2: Variables, binder: Binder)
    requires forall x :: x in Names(e) ==> Lookup(v1, x) == Lookup(v2, x)
    ensures TransformExpr(e, v1, binder) == TransformExpr(e, v2, binder)
    decreases e
  {
    match e
    case Literal(_, _) =>
    case Binary(_, l, r) =>
      TransformReadsOnlyItsNames(l, v1, v2, binder);
      TransformReadsOnlyItsNames(r, v1, v2, binder);
    case IdentifierName(_) =>
    case MemberAccess(_, t, _) =>
      TransformReadsOnlyItsNames(t, v1, v2, binder);
    case Invocation(c, args) =>
      if c.MemberAccess? {
        assert Names(c.target) == Names(c);
        TransformReadsOnlyItsNames(c.target, v1, v2, binder);
      }
      ArgsReadOnlyTheirNames(args, v1, v2, binder);
    case OtherSyntax(_) =>
  }

  lemma {:induction false} ArgsReadOnlyTheirNames(args: seq<Expr>, v1: Variables, v2: Variables, binder: Binder)
    requires forall x :: x in NamesOfAll(args) ==> Lookup(v1, x) == Lookup(v2, x)
    ensures TransformArgs(args, v1, binder) == TransformArgs(args, v2, binder)
    decreases args
  {
    if |args| > 0 {
      TransformReadsOnlyItsNames(args[0], v1, v2, binder);
      ArgsReadOnlyTheirNames(args[1..], v1, v2, binder);
    }
  }

  /** `Transform()` looks at the first expression child of the statement and
      at nothing after it. */
  lemma TransformUsesFirstExpressionChild(pre: seq<ChildNode>, e: Expr, post: seq<ChildNode>, vars: Variables, binder: Binder)
    requires forall j :: 0 <= j < |pre| ==> !pre[j].ExpressionChild?
    ensures Transform(Transformer(ExpressionStatement(pre + [ExpressionChild(e)] + post), vars), binder)
         == TransformExpr(e, vars, binder)
  {
    var children := pre + [ExpressionChild(e)] + post;
    assert children[|pre|] == ExpressionChild(e);
    assert forall j :: 0 <= j < |pre| ==> children[j] == pre[j];
    Sequences.FirstIndexUnique(children, IsExpressionChild, |pre|);
  }
}
