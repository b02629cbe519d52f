// The expression checker of typecheck.cpp: what it turns a tree into, and how many errors
// it reports on the way.
module TypeChecker {
  import opened Words
  import opened Grammar
  import opened Types

  type Scope = map<string, Type>

  /** `Crashed` is where the original dereferences a null type. */
  datatype Checked = Crashed | Checked(node: Node, errors: nat)

  /** The node itself if it has the type already, a conversion between numerical types, or
      None for an error. */
  function ImplicitCast(n: Node, ty: Type): Option<Node>
    requires n.inferred.Some?
  {
    if n.inferred.value == ty then Some(n)
    else if Numerical(n.inferred.value) && Numerical(ty) then Some(Node(Conversion(n), Some(ty)))
    else None
  }

  datatype Coercion = NoSuchType | Refused(lhs: Node, rhs: Node) | Coerced(lhs: Node, rhs: Node, ty: Type)

  predicate Coercible(t: Type) { Numerical(t) || (t.Basic? && t.kind == Boolean) }

  predicate OppositeSigns(a: Type, b: Type)
  {
    Integer(a) && Integer(b) && a.kind != b.kind
  }

  function Larger(a: int, b: int): int { if a >= b then a else b }

  /** Both operands brought to one type. A refusal is always one error; it may come after the
      left operand has been converted. */
  function CoerceTypes(lhs: Node, rhs: Node): Coercion
    requires lhs.inferred.Some? && rhs.inferred.Some?
  {
    var a, b := lhs.inferred.value, rhs.inferred.value;
    if !Coercible(a) || !Coercible(b) || OppositeSigns(a, b) then Refused(lhs, rhs) else
    var ty := Basic(if a.kind == Floating || b.kind == Floating then Floating else a.kind, Larger(a.size, b.size));
    if !Builtin(ty) then NoSuchType else
    match ImplicitCast(lhs, ty)
    case None => Refused(lhs, rhs)
    case Some(l) =>
      match ImplicitCast(rhs, ty)
      case None => Refused(l, rhs)
      case Some(r) => Coerced(l, r, ty)
  }

  function Typed(op: Operator, lhs: Node, rhs: Node, ty: Type): Node { Node(Operation(op, lhs, rhs), Some(ty)) }

  function CheckCoerced(op: Operator, lhs: Node, rhs: Node, onError: Type, onSuccess: Option<Type>): Checked
    requires lhs.inferred.Some? && rhs.inferred.Some?
  {
    match CoerceTypes(lhs, rhs)
    case NoSuchType => Crashed
    case Refused(l, r) => Checked(Typed(op, l, r, onError), 1)
    case Coerced(l, r, ty) => Checked(Typed(op, l, r, if onSuccess.Some? then onSuccess.value else ty), 0)
  }

  predicate Unsigneds(a: Type, b: Type)
  {
    a.Basic? && b.Basic? && a.kind == UnsignedInteger && b.kind == UnsignedInteger
  }

  /** A binary operator whose operands are checked and not poisoned. */
  function CheckOperator(op: Operator, lhs: Node, rhs: Node): Checked
    requires lhs.inferred.Some? && rhs.inferred.Some?
  {
    var a, b := lhs.inferred.value, rhs.inferred.value;
    match CategoryOf(op)
    case Arithmetic => CheckCoerced(op, lhs, rhs, POISON, None)
    case Comparison => CheckCoerced(op, lhs, rhs, BOOLEAN, Some(BOOLEAN))
    case Bitwise =>
      if !Unsigneds(a, b) then Checked(Typed(op, lhs, rhs, POISON), 1) else
      var ty := Basic(UnsignedInteger, Larger(a.size, b.size));
      Checked(Typed(op, ImplicitCast(lhs, ty).value, ImplicitCast(rhs, ty).value, ty), 0)
    case ShortCircuit =>
      var ok := a.Basic? && b.Basic? && a.kind == Boolean && b.kind == Boolean;
      Checked(Typed(op, lhs, rhs, BOOLEAN), if ok then 0 else 1)
    case Assignment =>
      match ImplicitCast(rhs, a)
      case None => Checked(Typed(op, lhs, rhs, VOID), 2)
      case Some(r) => Checked(Typed(op, lhs, r, VOID), 0)
  }

  function Check(n: Node, scope: Scope): (r: Checked)
    ensures r.Checked? ==> r.node.inferred.Some?
    decreases n
  {
    match n.form
    case Constant(ty) => Checked(Node(n.form, Some(ty)), 0)
    case Reference(x) =>
      if x in scope then Checked(Node(n.form, Some(scope[x])), 0) else Checked(Node(n.form, Some(POISON)), 1)
    case Operation(op, l, r) =>
      (match Check(l, scope)
       case Crashed => Crashed
       case Checked(l', errors1) =>
         match Check(r, scope)
         case Crashed => Crashed
         case Checked(r', errors2) =>
           if Poisoned(l') || Poisoned(r') then Checked(Typed(op, l', r', POISON), errors1 + errors2) else
           match CheckOperator(op, l', r')
           case Crashed => Crashed
           case Checked(o, errors) => Checked(o, errors1 + errors2 + errors))
    case Invocation(p, args) =>
      (match Check(p, scope)
       case Crashed => Crashed
       case Checked(p', errors) => CheckInvocation(p', errors, args, scope, n))
    case Conversion(_) => Crashed
  }

  predicate RightCount(s: Type, count: nat)
    requires s.Signature?
  {
    if s.vararg then count >= |s.parameters| else count == |s.parameters|
  }

  /** A call whose callee is checked. Where the callee is not callable, or the number of
      arguments is wrong, the arguments are left unchecked. */
  function CheckInvocation(p: Node, errors: nat, args: seq<Node>, scope: Scope, n: Node): (r: Checked)
    requires p.inferred.Some? && n.form.Invocation? && n.form.arguments == args
    ensures r.Checked? ==> r.node.inferred.Some?
    decreases n, 0
  {
    var s := p.inferred.value;
    if s == POISON then Checked(Node(Invocation(p, args), Some(POISON)), errors)
    else if !s.Signature? then Checked(Node(Invocation(p, args), Some(POISON)), errors + 1)
    else if !RightCount(s, |args|) then Checked(Node(Invocation(p, args), Some(s.result)), errors + 1)
    else match CheckArguments(args, s.parameters, scope)
      case CrashedArguments => Crashed
      case CheckedArguments(args', more) => Checked(Node(Invocation(p, args'), Some(s.result)), errors + more)
  }

  datatype CheckedArguments = CrashedArguments | CheckedArguments(nodes: seq<Node>, errors: nat)

  /** Arguments are not converted: each must have its parameter's type, or be poisoned. */
  function CheckArguments(args: seq<Node>, parameters: seq<Type>, scope: Scope): (r: CheckedArguments)
    ensures r.CheckedArguments? ==> |r.nodes| == |args|
    decreases args
  {
    if args == [] then CheckedArguments([], 0) else
    match Check(args[0], scope)
    case Crashed => CrashedArguments
    case Checked(a, errors) =>
      var mismatch := !Poisoned(a) && parameters != [] && a.inferred.value != parameters[0];
      match CheckArguments(args[1..], if parameters == [] then [] else parameters[1..], scope)
      case CrashedArguments => CrashedArguments
      case CheckedArguments(rest, more) => CheckedArguments([a] + rest, errors + (if mismatch then 1 else 0) + more)
  }
}
