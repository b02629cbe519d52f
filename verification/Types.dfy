// Types, and expression trees before and after checking (node.h, node.cpp).
module Types {
  import opened Words
  import opened Grammar

  datatype Kind = VoidKind | Boolean | SignedInteger | UnsignedInteger | Floating | TypeKind | LabelKind | PoisonKind

  /** Two types are equal exactly if they are built alike, which is what the original's
      recursive comparison computes for these three. */
  datatype Type =
    | Basic(kind: Kind, size: int)
    | Pointer(target: Type)
    | Signature(parameters: seq<Type>, result: Type, vararg: bool)

  const VOID: Type := Basic(VoidKind, -1)
  const POISON: Type := Basic(PoisonKind, -1)
  const BOOLEAN: Type := Basic(Boolean, 1)

  predicate Integer(t: Type) { t.Basic? && (t.kind == SignedInteger || t.kind == UnsignedInteger) }

  predicate Numerical(t: Type) { Integer(t) || (t.Basic? && t.kind == Floating) }

  /** The basic types that exist. */
  predicate Builtin(t: Type)
  {
    t.Basic? &&
    match t.kind
    case SignedInteger | UnsignedInteger => t.size in {1, 2, 4, 8}
    case Floating => t.size in {4, 8}
    case Boolean => t.size == 1
    case _ => t.size == -1
  }

  /** A type that an error-free declaration can have. */
  predicate Proper(t: Type)
  {
    match t
    case Basic(_, _) => Builtin(t) && t != POISON
    case Pointer(_) => true
    case Signature(_, result, _) => Proper(result)
  }

  /** A node and the type that checking has inferred for it, if any. */
  datatype Node = Node(form: Form, inferred: Option<Type>)

  datatype Form =
    | Constant(ty: Type)
    | Reference(name: string)
    | Operation(op: Operator, lhs: Node, rhs: Node)
    | Invocation(procedure: Node, arguments: seq<Node>)
    | Conversion(expression: Node)

  datatype Category = Arithmetic | Bitwise | Comparison | ShortCircuit | Assignment

  function CategoryOf(op: Operator): Category
  {
    match op
    case Assign => Assignment
    case Asterisk | Slash | Percent | Plus | Minus => Arithmetic
    case LeftShift | RightShift | Ampersand | Caret | Bar => Bitwise
    case LessThan | GreaterThan | LessThanOrEqual | GreaterThanOrEqual | EqualTo | Inequal => Comparison
    case LogicalOr | LogicalAnd => ShortCircuit
  }

  /** As the node converter builds trees: no types yet, no conversions, literals of the
      types that literals have. */
  predicate Fresh(n: Node)
  {
    n.inferred.None? &&
    match n.form
    case Constant(t) => Proper(t)
    case Reference(_) => true
    case Operation(_, l, r) => Fresh(l) && Fresh(r)
    case Invocation(p, args) => Fresh(p) && AllFresh(args)
    case Conversion(_) => false
  }

  predicate AllFresh(ns: seq<Node>)
  {
    ns == [] || (Fresh(ns[0]) && AllFresh(ns[1..]))
  }

  predicate Poisoned(n: Node) { n.inferred == Some(POISON) }

  /** The tree without conversions and without inferred types. */
  function Strip(n: Node): Node
  {
    match n.form
    case Constant(_) => Node(n.form, None)
    case Reference(_) => Node(n.form, None)
    case Operation(op, l, r) => Node(Operation(op, Strip(l), Strip(r)), None)
    case Invocation(p, args) => Node(Invocation(Strip(p), StripAll(args)), None)
    case Conversion(e) => Strip(e)
  }

  function StripAll(ns: seq<Node>): (r: seq<Node>)
    ensures |r| == |ns|
  {
    if ns == [] then [] else [Strip(ns[0])] + StripAll(ns[1..])
  }
}
