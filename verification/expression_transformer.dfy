/** `ExpressionTransformer`: a recursive descent over the syntax of one
    expression statement that builds an expression tree, dispatching on the
    node type and stopping at the first exception. */
module ExpressionTransformer {
  import opened Wrappers
  import opened Runtime
  import opened Text
  import opened Int32Parse
  import opened Syntax
  import opened ExpressionGraph
  import Sequences

  /** The variable dictionary: a name may be bound to null. */
  type Variables = map<string, Option<Value>>

  /** What `TryGetValue` leaves in its out-parameter: the bound value, or
      null both for a missing name and for a name bound to null. */
  function Lookup(vars: Variables, id: string): (r: Option<Value>)
    ensures r.Some? <==> id in vars && vars[id].Some?
    ensures r.Some? ==> vars[id] == r
  {
    if id in vars then vars[id] else None
  }

  /** An `ExpressionTransformer` object: the statement and the variables it
      was constructed with. */
  datatype Transformer = Transformer(expr: Statement, variables: Variables)

  /** The one-argument constructor, which supplies an empty dictionary. */
  function NewTransformer(expr: Statement): (t: Transformer)
    ensures t.expr == expr
    ensures forall id :: Lookup(t.variables, id).None?
  {
    Transformer(expr, map[])
  }

  // ---------------------------------------------------------------- literals

  /** The character-literal rule: strip every leading and trailing `'` and
      take the first character left, which throws on an empty string. */
  function DecodeCharLiteral(text: string): (r: Result<char, Error>)
    ensures r.Err? <==> forall i :: 0 <= i < |text| ==> text[i] == '\''
    ensures r.Err? ==> r.error == IndexOutOfRange
    ensures r.Ok? ==> LeadingCount(text, '\'') < |text| && r.value == text[LeadingCount(text, '\'')]
    ensures r.Ok? ==> r.value != '\''
  {
    var inner := Trim(text, '\'');
    if |inner| == 0 then Err(IndexOutOfRange) else Ok(inner[0])
  }

  /** The character case of the literal rule: the decoded character as a
      `char` constant, or the exception decoding throws. */
  function CharConstant(text: string): (r: Result<Slot, Error>)
    ensures r.Err? <==> DecodeCharLiteral(text).Err?
    ensures r.Err? ==> r.error == IndexOutOfRange
    ensures r.Ok? ==> r == Ok(Some(Constant(Some(Chr(DecodeCharLiteral(text).value)), Char)))
  {
    var c :- DecodeCharLiteral(text);
    Ok(Some(Constant(Some(Chr(c)), Char)))
  }

  /** The literal rule, with `false` decoded to `false` (see
      `TransformLiteralAsWritten` for the shipped behaviour). Every constant
      it builds is typed by its value (`LiteralConstantsWellTyped`); a
      literal kind it does not know gives no node at all rather than an
      exception. */
  function TransformLiteral(kind: LiteralKind, text: string): (r: Result<Slot, Error>)
    ensures r == Ok(None) <==> kind.OtherLiteral?
    ensures kind == NumericLiteral ==>
      if IsIntegerText(text) && InInt32Range(IntegerValue(text))
      then r == Ok(Some(Constant(Some(Int(IntegerValue(text) as int32)), Int32)))
      else r == Err(ParseInt32(text).error)
    ensures kind == StringLiteral ==> r == Ok(Some(Constant(Some(Str(Trim(text, '"'))), String)))
    ensures kind == CharacterLiteral ==>
      if forall i :: 0 <= i < |text| ==> text[i] == '\''
      then r == Err(IndexOutOfRange)
      else DecodeCharLiteral(text).Ok? && r == Ok(Some(Constant(Some(Chr(DecodeCharLiteral(text).value)), Char)))
    ensures kind == TrueLiteral || kind == FalseLiteral ==>
      r == Ok(Some(Constant(Some(Bool(kind == TrueLiteral)), Boolean)))
    ensures kind == NullLiteral ==> r == Ok(Some(Constant(None, Object)))
    ensures r.Err? ==> r.error == (if kind == NumericLiteral then ParseInt32(text).error else IndexOutOfRange)
  {
    match kind
    case NumericLiteral =>
      var n :- ParseInt32(text);
      Ok(Some(Constant(Some(Int(n)), Int32)))
    case StringLiteral => Ok(Some(Constant(Some(Str(Trim(text, '"'))), String)))
    case CharacterLiteral => CharConstant(text)
    case TrueLiteral => Ok(Some(Constant(Some(Bool(true)), Boolean)))
    case FalseLiteral => Ok(Some(Constant(Some(Bool(false)), Boolean)))
    case NullLiteral => Ok(Some(Constant(None, Object)))
    case OtherLiteral(_) => Ok(None)
  }

  /** The literal rule exactly as shipped, case for case: the `false`
      literal also yields the constant `true`. */
  function TransformLiteralAsWritten(kind: LiteralKind, text: string): (r: Result<Slot, Error>)
    ensures r == Ok(None) <==> kind.OtherLiteral?
    ensures r.Err? <==>
      || (kind == NumericLiteral && ParseInt32(text).Err?)
      || (kind == CharacterLiteral && DecodeCharLiteral(text).Err?)
    ensures r.Err? ==> r.error == (if kind == NumericLiteral then ParseInt32(text).error else IndexOutOfRange)
  {
    match kind
    case NumericLiteral =>
      var n :- ParseInt32(text);
      Ok(Some(Constant(Some(Int(n)), Int32)))
    case StringLiteral => Ok(Some(Constant(Some(Str(Trim(text, '"'))), String)))
    case CharacterLiteral => CharConstant(text)
    case TrueLiteral => Ok(Some(Constant(Some(Bool(true)), Boolean)))
    case FalseLiteral => Ok(Some(Constant(Some(Bool(true)), Boolean)))
    case NullLiteral => Ok(Some(Constant(None, Object)))
    case OtherLiteral(_) => Ok(None)
  }

  /** The shipped rule gives `false` the value `true`, unlike the corrected one. */
  lemma FalseLiteralAsWrittenIsTrue(text: string)
    ensures TransformLiteralAsWritten(FalseLiteral, text) == Ok(Some(Constant(Some(Bool(true)), Boolean)))
    ensures TransformLiteralAsWritten(FalseLiteral, text) != TransformLiteral(FalseLiteral, text)
  {
  }

  /** The shipped and the corrected literal rules differ on `false` and
      nowhere else. */
  lemma LiteralRulesAgreeExceptFalse(kind: LiteralKind, text: string)
    ensures TransformLiteralAsWritten(kind, text) == TransformLiteral(kind, text) <==> kind != FalseLiteral
  {
  }

  /** The typed constant a well-formed numeric literal becomes. */
  lemma NumericConstantWellTyped(text: string)
    ensures TransformLiteral(NumericLiteral, text).Ok? ==>
      TransformLiteral(NumericLiteral, text).value.Some? && TransformLiteral(NumericLiteral, text).value.value.Constant?
      && ConstantWellTyped(TransformLiteral(NumericLiteral, text).value.value)
  {
    if IsIntegerText(text) && InInt32Range(IntegerValue(text)) {
      var n := IntegerValue(text) as int32;
      assert TransformLiteral(NumericLiteral, text) == Ok(Some(Constant(Some(Int(n)), Int32)));
    }
  }

  /** The typed constant a character literal becomes. */
  lemma CharConstantWellTyped(text: string)
    ensures TransformLiteral(CharacterLiteral, text).Ok? ==>
      TransformLiteral(CharacterLiteral, text).value.Some? && TransformLiteral(CharacterLiteral, text).value.value.Constant?
      && ConstantWellTyped(TransformLiteral(CharacterLiteral, text).value.value)
  {
    assert TransformLiteral(CharacterLiteral, text) == CharConstant(text);
  }

  /** Every constant the literal rule builds is typed by its value, the
      null constant as `object`. */
  lemma LiteralConstantsWellTyped(kind: LiteralKind, text: string)
    ensures TransformLiteral(kind, text).Ok? && TransformLiteral(kind, text).value.Some? ==>
      TransformLiteral(kind, text).value.value.Constant? && ConstantWellTyped(TransformLiteral(kind, text).value.value)
  {
    match kind
    case NumericLiteral => NumericConstantWellTyped(text);
    case CharacterLiteral => CharConstantWellTyped(text);
    case _ =>
  }

  /** The same holds for the rule as written, `false` literal included. */
  lemma AsWrittenConstantsWellTyped(kind: LiteralKind, text: string)
    ensures TransformLiteralAsWritten(kind, text).Ok? && TransformLiteralAsWritten(kind, text).value.Some? ==>
      TransformLiteralAsWritten(kind, text).value.value.Constant? && ConstantWellTyped(TransformLiteralAsWritten(kind, text).value.value)
  {
    LiteralRulesAgreeExceptFalse(kind, text);
    LiteralConstantsWellTyped(kind, text);
  }

  /** A string literal loses all its surrounding double quotes, however many,
      and nothing inside them: escape sequences are left as written. */
  lemma StringLiteralUnwraps(body: string, m: nat, n: nat)
    requires |body| > 0 ==> body[0] != '"' && body[|body| - 1] != '"'
    ensures TransformLiteral(StringLiteral, Repeat('"', m) + body + Repeat('"', n))
         == Ok(Some(Constant(Some(Str(body)), String)))
  {
    TrimUnwraps(body, '"', m, n);
  }

  /** A one-character literal `'c'` decodes to `c` for every `c` but `'`. */
  lemma CharLiteralRoundTrip(c: char)
    requires c != '\''
    ensures TransformLiteral(CharacterLiteral, ['\'', c, '\'']) == Ok(Some(Constant(Some(Chr(c)), Char)))
  {
    assert LeadingCount(['\'', c, '\''], '\'') == 1;
  }

  /** Every `Int32` written in decimal is a numeric literal for itself. */
  lemma NumericLiteralRoundTrip(n: int32)
    ensures TransformLiteral(NumericLiteral, FormatInt32(n)) == Ok(Some(Constant(Some(Int(n)), Int32)))
  {
    ParseFormatRoundTrip(n);
  }

  // ------------------------------------------------------------- identifiers

  /** The identifier rule: a bound, non-null value becomes a constant of
      that value's run-time type; an unbound name and a name bound to null
      both throw CS0103. */
  function TransformIdentifier(id: string, vars: Variables): (r: Result<Slot, Error>)
    ensures r.Ok? <==> id in vars && vars[id].Some?
    ensures r.Ok? ==> r.value == Some(Constant(vars[id], TypeOf(vars[id].value)))
    ensures r.Err? ==> r.error == NameNotFound(id) && Message(r.error) == NameNotFoundMessage(id)
  {
    match Lookup(vars, id)
    case None => Err(NameNotFound(id))
    case Some(v) => Ok(Some(Constant(Some(v), TypeOf(v))))
  }

  // -------------------------------------------------------------- recursion

  /** The operator a binary kind is built with, for the four kinds the
      binary rule handles; each kind keeps its own operator. */
  function ArithOpOf(k: BinaryKind): (r: Option<ArithOp>)
    ensures r.None? <==> k.OtherBinary?
    ensures r == Some(Add) <==> k == AddExpression
    ensures r == Some(Subtract) <==> k == SubtractExpression
    ensures r == Some(Multiply) <==> k == MultiplyExpression
    ensures r == Some(Divide) <==> k == DivideExpression
  {
    match k
    case AddExpression => Some(Add)
    case SubtractExpression => Some(Subtract)
    case MultiplyExpression => Some(Multiply)
    case DivideExpression => Some(Divide)
    case OtherBinary(_) => None
  }

  /** `TransformExpressionSyntax`: dispatch on the node type. */
  function TransformExpr(e: Expr, vars: Variables, binder: Binder): (r: Result<Slot, Error>)
    ensures e.OtherSyntax? ==> r == Err(UnsupportedExpression)
    decreases e, 1
  {
    match e
    case Literal(kind, text) => TransformLiteral(kind, text)
    case Binary(_, _, _) => TransformBinary(e, vars, binder)
    case IdentifierName(id) => TransformIdentifier(id, vars)
    case MemberAccess(_, _, _) => TransformMemberAccess(e, vars, binder)
    case Invocation(_, _) => TransformInvocation(e, vars, binder)
    case OtherSyntax(_) => Err(UnsupportedExpression)
  }

  /** The binary rule: for the four arithmetic kinds the left operand is
      transformed before the right and the node keeps the operator; any
      other kind yields no node without looking at its operands. */
  function TransformBinary(e: Expr, vars: Variables, binder: Binder): (r: Result<Slot, Error>)
    requires e.Binary?
    ensures ArithOpOf(e.op).None? ==> r == Ok(None)
    ensures ArithOpOf(e.op).Some? && r.Ok? ==> r.value.Some?
    ensures ArithOpOf(e.op).Some? && TransformExpr(e.left, vars, binder).Err? ==>
      r == TransformExpr(e.left, vars, binder)
    ensures ArithOpOf(e.op).Some? && TransformExpr(e.left, vars, binder).Ok? && TransformExpr(e.right, vars, binder).Err? ==>
      r == TransformExpr(e.right, vars, binder)
    ensures r.Ok? && r.value.Some? ==>
      && r.value.value.Arithmetic?
      && ArithOpOf(e.op) == Some(r.value.value.op)
      && TransformExpr(e.left, vars, binder) == Ok(Some(r.value.value.left))
      && TransformExpr(e.right, vars, binder) == Ok(Some(r.value.value.right))
    ensures ArithOpOf(e.op).Some? && TransformExpr(e.left, vars, binder).Ok? && TransformExpr(e.right, vars, binder).Ok? ==>
      r == MakeArithmetic(ArithOpOf(e.op).value, TransformExpr(e.left, vars, binder).value, TransformExpr(e.right, vars, binder).value, binder)
    decreases e, 0
  {
    match ArithOpOf(e.op)
    case None => Ok(None)
    case Some(op) =>
      var left :- TransformExpr(e.left, vars, binder);
      var right :- TransformExpr(e.right, vars, binder);
      MakeArithmetic(op, left, right, binder)
  }

  /** The member-access rule: a property-or-field read keyed by the member
      name over the transformed target, for `a.b` and `a->b` alike. */
  function TransformMemberAccess(e: Expr, vars: Variables, binder: Binder): (r: Result<Slot, Error>)
    requires e.MemberAccess?
    ensures r.Ok? ==> r.value.Some? && r.value.value.PropertyOrField? && r.value.value.member == e.name
    ensures r.Ok? ==> TransformExpr(e.target, vars, binder) == Ok(Some(r.value.value.target))
    ensures TransformExpr(e.target, vars, binder).Err? ==> r == Err(TransformExpr(e.target, vars, binder).error)
    ensures TransformExpr(e.target, vars, binder).Ok? ==> r == MakePropertyOrField(TransformExpr(e.target, vars, binder).value, e.name, binder)
    decreases e, 0
  {
    var target :- TransformExpr(e.target, vars, binder);
    MakePropertyOrField(target, e.name, binder)
  }

  /** `callee` has the shape `a.m` the invocation rule accepts: a member
      access of kind `SimpleMemberAccess`, so neither `a->m` nor a bare
      name nor any other expression. */
  function IsMethodCallee(callee: Expr): (r: bool)
    ensures r ==> callee.MemberAccess?
    ensures callee.MemberAccess? && callee.access == ArrowMemberAccess ==> !r
    ensures callee.MemberAccess? && callee.access == SimpleMemberAccess ==> r
  {
    callee.MemberAccess? && callee.access == SimpleMemberAccess
  }

  /** The invocation rule. Arguments are transformed first; only then is the
      callee's shape checked, and only then is the instance transformed. */
  function TransformInvocation(e: Expr, vars: Variables, binder: Binder): (r: Result<Slot, Error>)
    requires e.Invocation?
    ensures TransformArgs(e.arguments, vars, binder).Err? ==>
      r == Err(TransformArgs(e.arguments, vars, binder).error)
    ensures TransformArgs(e.arguments, vars, binder).Ok? && !IsMethodCallee(e.callee) ==>
      r == Err(UnsupportedExpression)
    ensures r.Ok? ==> IsMethodCallee(e.callee) && r.value.Some? && r.value.value.Call?
    ensures r.Ok? ==> r.value.value.methodName == e.callee.name
    ensures r.Ok? ==> TransformExpr(e.callee.target, vars, binder) == Ok(Some(r.value.value.instance))
    ensures r.Ok? ==>
      && TransformArgs(e.arguments, vars, binder).Ok?
      && |r.value.value.args| == |e.arguments|
      && forall i :: 0 <= i < |e.arguments| ==> TransformArgs(e.arguments, vars, binder).value[i] == Some(r.value.value.args[i])
    ensures TransformArgs(e.arguments, vars, binder).Ok? && IsMethodCallee(e.callee) && TransformExpr(e.callee.target, vars, binder).Err? ==>
      r == Err(TransformExpr(e.callee.target, vars, binder).error)
    ensures TransformArgs(e.arguments, vars, binder).Ok? && IsMethodCallee(e.callee) && TransformExpr(e.callee.target, vars, binder).Ok? ==>
      r == MakeCall(TransformExpr(e.callee.target, vars, binder).value, e.callee.name, TransformArgs(e.arguments, vars, binder).value, binder)
    decreases e, 0
  {
    var args :- TransformArgs(e.arguments, vars, binder);
    if IsMethodCallee(e.callee) then
      var instance :- TransformExpr(e.callee.target, vars, binder);
      MakeCall(instance, e.callee.name, args, binder)
    else
      Err(UnsupportedExpression)
  }

  /** The argument loop: left to right, stopping at the first exception. */
  function TransformArgs(args: seq<Expr>, vars: Variables, binder: Binder): (r: Result<seq<Slot>, Error>)
    ensures r.Ok? ==> |r.value| == |args|
    decreases args
  {
    if |args| == 0 then Ok([])
    else
      var first :- TransformExpr(args[0], vars, binder);
      var rest :- TransformArgs(args[1..], vars, binder);
      Ok([first] + rest)
  }

  /** `Transform()`: the first expression child of the statement, and only
      that one, is transformed. */
  function Transform(t: Transformer, binder: Binder): (r: Result<Slot, Error>)
    ensures (forall i :: 0 <= i < |t.expr.children| ==> !t.expr.children[i].ExpressionChild?) ==> r == Err(NoElements)
  {
    match Sequences.FirstIndex(t.expr.children, IsExpressionChild)
    case None => Err(NoElements)
    case Some(k) => TransformExpr(t.expr.children[k].expr, t.variables, binder)
  }
}
