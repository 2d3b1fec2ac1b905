/** The `System.Linq.Expressions` nodes the transformer builds, and the
    factory methods that build them (`Expression.Add`, `PropertyOrField`,
    `Call`). A factory receiving a C# null operand throws
    `ArgumentNullException`; the reflection checks a factory performs after
    that (operand types, member and method lookup) are the `Binder`
    supplied by the caller. */
module ExpressionGraph {
  import opened Wrappers
  import opened Runtime

  datatype ArithOp = Add | Subtract | Multiply | Divide

  datatype Node =
    | Constant(value: Option<Value>, ty: ClrType)
    | Arithmetic(op: ArithOp, left: Node, right: Node)
    | PropertyOrField(target: Node, member: string)
    | Call(instance: Node, methodName: string, args: seq<Node>)

  /** The reflection a factory performs on a fully built node: `None` when
      it accepts, otherwise the exception it throws. */
  type Binder = Node -> Option<Error>

  /** A node slot as C# sees it: `None` is a null `Expression`. */
  type Slot = Option<Node>

  /** A constant carries the run-time type of its value; the null constant
      is typed `object`. */
  predicate ConstantWellTyped(n: Node)
    requires n.Constant?
  {
    match n.value
    case None => n.ty == Object
    case Some(v) => n.ty == TypeOf(v)
  }

  /** Runs the binder over a node whose operands are all present. */
  function Bind(n: Node, binder: Binder): (r: Result<Slot, Error>)
    ensures r.Ok? <==> binder(n).None?
    ensures r.Ok? ==> r.value == Some(n)
    ensures r.Err? ==> r.error == binder(n).value
  {
    match binder(n)
    case None => Ok(Some(n))
    case Some(e) => Err(e)
  }

  /** `Expression.Add` and friends. */
  function MakeArithmetic(op: ArithOp, left: Slot, right: Slot, binder: Binder): (r: Result<Slot, Error>)
    ensures left.None? ==> r == Err(NullArgument("left"))
    ensures left.Some? && right.None? ==> r == Err(NullArgument("right"))
    ensures r.Ok? ==> left.Some? && right.Some? && r.value == Some(Arithmetic(op, left.value, right.value))
    ensures left.Some? && right.Some? ==>
      && (r.Ok? <==> binder(Arithmetic(op, left.value, right.value)).None?)
      && (r.Err? ==> r.error == binder(Arithmetic(op, left.value, right.value)).value)
  {
    if left.None? then Err(NullArgument("left"))
    else if right.None? then Err(NullArgument("right"))
    else Bind(Arithmetic(op, left.value, right.value), binder)
  }

  /** `Expression.PropertyOrField(expression, name)`. */
  function MakePropertyOrField(target: Slot, member: string, binder: Binder): (r: Result<Slot, Error>)
    ensures target.None? ==> r == Err(NullArgument("expression"))
    ensures r.Ok? ==> target.Some? && r.value == Some(PropertyOrField(target.value, member))
    ensures target.Some? ==>
      && (r.Ok? <==> binder(PropertyOrField(target.value, member)).None?)
      && (r.Err? ==> r.error == binder(PropertyOrField(target.value, member)).value)
  {
    if target.None? then Err(NullArgument("expression"))
    else Bind(PropertyOrField(target.value, member), binder)
  }

  predicate AllPresent(slots: seq<Slot>) {
    forall i :: 0 <= i < |slots| ==> slots[i].Some?
  }

  function Present(slots: seq<Slot>): (ns: seq<Node>)
    requires AllPresent(slots)
    ensures |ns| == |slots|
    ensures forall i :: 0 <= i < |slots| ==> slots[i] == Some(ns[i])
  {
    seq(|slots|, i requires 0 <= i < |slots| => slots[i].value)
  }

  /** `Expression.Call(instance, methodName, null, arguments)`: a null
      instance or a null argument is refused before any method lookup. */
  function MakeCall(instance: Slot, methodName: string, args: seq<Slot>, binder: Binder): (r: Result<Slot, Error>)
    ensures instance.None? ==> r == Err(NullArgument("instance"))
    ensures instance.Some? && !AllPresent(args) ==> r == Err(NullArgument("arguments"))
    ensures r.Ok? ==> instance.Some? && AllPresent(args)
    ensures r.Ok? ==> r.value.Some? && r.value.value.Call?
    ensures r.Ok? ==> var n := r.value.value;
      n.instance == instance.value && n.methodName == methodName
      && |n.args| == |args| && forall i :: 0 <= i < |args| ==> args[i] == Some(n.args[i])
    ensures instance.Some? && AllPresent(args) ==>
      && (r.Ok? <==> binder(Call(instance.value, methodName, Present(args))).None?)
      && (r.Err? ==> r.error == binder(Call(instance.value, methodName, Present(args))).value)
  {
    if instance.None? then Err(NullArgument("instance"))
    else if !AllPresent(args) then Err(NullArgument("arguments"))
    else Bind(Call(instance.value, methodName, Present(args)), binder)
  }
}
