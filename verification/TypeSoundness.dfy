// What the checker guarantees: it accepts exactly the well-typed trees, changes nothing but
// conversions, and leaves what code generation asserts.
module TypeSoundness {
  import opened Words
  import opened Grammar
  import opened Types
  import opened TypeChecker

  // ----- the typing rules, without conversions -----

  predicate OfNumbers(k: Kind) { k in {SignedInteger, UnsignedInteger, Floating} }

  /** The common type of two operands: two booleans, two integers of one signedness, or two
      numbers with floating point among them; as large as the larger one. */
  function Join(a: Type, b: Type): Option<Type>
  {
    match (a, b)
    case (Basic(Boolean, _), Basic(Boolean, _)) => Some(Basic(Boolean, 1))
    case (Basic(j, m), Basic(k, n)) =>
      if !OfNumbers(j) || !OfNumbers(k) then None
      else if j == k || j == Floating then Some(Basic(j, if m < n then n else m))
      else if k == Floating then Some(Basic(Floating, if m < n then n else m))
      else None
    case _ => None
  }

  /** The type of each operator on operands of types a and b. */
  function OperationType(op: Operator, a: Type, b: Type): Option<Type>
  {
    match op
    case Asterisk | Slash | Percent | Plus | Minus => Join(a, b)
    case EqualTo | Inequal | LessThan | LessThanOrEqual | GreaterThan | GreaterThanOrEqual =>
      if Join(a, b).Some? then Some(Basic(Boolean, 1)) else None
    case LeftShift | RightShift | Ampersand | Caret | Bar =>
      (match (a, b)
       case (Basic(UnsignedInteger, m), Basic(UnsignedInteger, n)) =>
         Some(Basic(UnsignedInteger, if m < n then n else m))
       case _ => None)
    case LogicalAnd | LogicalOr =>
      (match (a, b)
       case (Basic(Boolean, _), Basic(Boolean, _)) => Some(Basic(Boolean, 1))
       case _ => None)
    case Assign =>
      if a == b || (a.Basic? && b.Basic? && OfNumbers(a.kind) && OfNumbers(b.kind)) then Some(Basic(VoidKind, -1))
      else None
  }

  /** The type of a tree; None where a rule is broken. */
  function TypeOf(n: Node, scope: Scope): Option<Type>
    decreases n
  {
    match n.form
    case Constant(ty) => Some(ty)
    case Reference(x) => if x in scope then Some(scope[x]) else None
    case Operation(op, l, r) =>
      if TypeOf(l, scope).None? || TypeOf(r, scope).None? then None
      else OperationType(op, TypeOf(l, scope).value, TypeOf(r, scope).value)
    case Invocation(p, args) =>
      if TypeOf(p, scope).None? || !TypeOf(p, scope).value.Signature? then None
      else
        var s := TypeOf(p, scope).value;
        var counted := |args| == |s.parameters| || (s.vararg && |args| > |s.parameters|);
        if counted && ArgumentsFit(args, s.parameters, scope) then Some(s.result) else None
    case Conversion(_) => None
  }

  predicate ArgumentsFit(args: seq<Node>, parameters: seq<Type>, scope: Scope)
    decreases args
  {
    if args == [] then true
    else if parameters == [] then TypeOf(args[0], scope).Some? && ArgumentsFit(args[1..], [], scope)
    else TypeOf(args[0], scope) == Some(parameters[0]) && ArgumentsFit(args[1..], parameters[1..], scope)
  }

  predicate ProperScope(scope: Scope)
  {
    forall x :: x in scope ==> Proper(scope[x])
  }

  // ----- one operator -----

  lemma {:induction false} CoercionFollowsJoin(l: Node, r: Node)
    requires l.inferred.Some? && r.inferred.Some? && Proper(l.inferred.value) && Proper(r.inferred.value)
    ensures CoerceTypes(l, r).Coerced? <==> Join(l.inferred.value, r.inferred.value).Some?
    ensures CoerceTypes(l, r).Coerced? ==>
              var c := CoerceTypes(l, r);
              && Join(l.inferred.value, r.inferred.value) == Some(c.ty)
              && Proper(c.ty) && c.lhs.inferred == c.rhs.inferred == Some(c.ty)
              && Strip(c.lhs) == Strip(l) && Strip(c.rhs) == Strip(r)
  {}

  /** The operands of an accepted operator have one type; the result is what the rules say. */
  predicate OperatorAccepted(op: Operator, l: Node, r: Node, o: Node)
  {
    && l.inferred.Some? && r.inferred.Some?
    && o.form.Operation? && o.form.op == op
    && o.inferred == OperationType(op, l.inferred.value, r.inferred.value)
    && o.inferred.Some? && Proper(o.inferred.value)
    && o.form.lhs.inferred == o.form.rhs.inferred
    && Strip(o.form.lhs) == Strip(l) && Strip(o.form.rhs) == Strip(r)
  }

  lemma {:induction false} OperatorExact(op: Operator, l: Node, r: Node)
    requires l.inferred.Some? && r.inferred.Some? && Proper(l.inferred.value) && Proper(r.inferred.value)
    ensures var c := CheckOperator(op, l, r);
            && ((c.Checked? && c.errors == 0) <==> OperationType(op, l.inferred.value, r.inferred.value).Some?)
            && (c.Checked? && c.errors == 0 ==> OperatorAccepted(op, l, r, c.node))
  {
    hide CoerceTypes, Strip, Join;
    match CategoryOf(op)
    case Arithmetic => CoercionFollowsJoin(l, r);
    case Comparison => CoercionFollowsJoin(l, r);
    case Bitwise => BitwiseExact(op, l, r);
    case ShortCircuit =>
    case Assignment => AssignmentExact(op, l, r);
  }

  lemma {:induction false} BitwiseExact(op: Operator, l: Node, r: Node)
    requires CategoryOf(op) == Bitwise
    requires l.inferred.Some? && r.inferred.Some? && Proper(l.inferred.value) && Proper(r.inferred.value)
    ensures var c := CheckOperator(op, l, r);
            && c.Checked?
            && (c.errors == 0 <==> OperationType(op, l.inferred.value, r.inferred.value).Some?)
            && (c.errors == 0 ==> OperatorAccepted(op, l, r, c.node))
  {}

  lemma {:induction false} AssignmentExact(op: Operator, l: Node, r: Node)
    requires CategoryOf(op) == Assignment
    requires l.inferred.Some? && r.inferred.Some? && Proper(l.inferred.value) && Proper(r.inferred.value)
    ensures var c := CheckOperator(op, l, r);
            && c.Checked?
            && (c.errors == 0 <==> OperationType(op, l.inferred.value, r.inferred.value).Some?)
            && (c.errors == 0 ==> OperatorAccepted(op, l, r, c.node))
  {}

  // ----- whole trees -----

  predicate Clean(c: Checked) { c.Checked? && c.errors == 0 }

  /** The checker accepts a tree without error exactly if the rules give it a type, and then
      infers that type. */
  lemma {:induction false} AcceptsExactlyTheTyped(n: Node, scope: Scope)
    requires Fresh(n) && ProperScope(scope)
    ensures Clean(Check(n, scope)) <==> TypeOf(n, scope).Some?
    ensures TypeOf(n, scope).Some? ==>
              Check(n, scope).node.inferred == TypeOf(n, scope) && Proper(TypeOf(n, scope).value)
    decreases n
  {
    hide CheckOperator, OperationType, CheckArguments, ArgumentsFit;
    match n.form
    case Operation(op, l, r) =>
      AcceptsExactlyTheTyped(l, scope);
      AcceptsExactlyTheTyped(r, scope);
      if Clean(Check(l, scope)) && Clean(Check(r, scope)) {
        OperatorExact(op, Check(l, scope).node, Check(r, scope).node);
      }
    case Invocation(p, args) =>
      AcceptsExactlyTheTyped(p, scope);
      if Clean(Check(p, scope)) {
        var s := Check(p, scope).node.inferred.value;
        if s.Signature? {
          AcceptsArguments(args, s.parameters, scope);
        }
      }
    case _ =>
  }

  /** The types of numbers: signed and unsigned integers of one, two, four and eight bytes, and
      floating point of four and eight. */
  predicate IsNumberType(ty: Type)
  {
    && ty.Basic?
    && match ty.kind
       case SignedInteger | UnsignedInteger => ty.size == 1 || ty.size == 2 || ty.size == 4 || ty.size == 8
       case Floating => ty.size == 4 || ty.size == 8
       case _ => false
  }

  /** Numbers of each of these types, and of no other, are numbers to the checker: the sum of two
      variables of the type has the type. */
  lemma {:induction false} EveryNumberTypeAdds(x: string, ty: Type, scope: Scope)
    requires x in scope && scope[x] == ty
    ensures IsNumberType(ty) ==> Proper(ty)
    ensures var n := Node(Reference(x), None); var c := Check(Node(Operation(Plus, n, n), None), scope);
            Proper(ty) && ty != BOOLEAN ==>
              (IsNumberType(ty) <==> Clean(c)) && (Clean(c) ==> c.node.inferred == Some(ty))
  {
    var n := Node(Reference(x), None);
    assert Check(n, scope) == Checked(Node(n.form, Some(ty)), 0);
  }

  lemma {:induction false} AcceptsArguments(args: seq<Node>, parameters: seq<Type>, scope: Scope)
    requires AllFresh(args) && ProperScope(scope)
    ensures var c := CheckArguments(args, parameters, scope);
            (c.CheckedArguments? && c.errors == 0) <==> ArgumentsFit(args, parameters, scope)
    decreases args
  {
    hide Check, TypeOf;
    if args != [] {
      AcceptsExactlyTheTyped(args[0], scope);
      AcceptsArguments(args[1..], if parameters == [] then [] else parameters[1..], scope);
    }
  }

  /** Checking only adds types and conversions, with or without errors. */
  lemma {:induction false} CheckKeepsTree(n: Node, scope: Scope)
    ensures Check(n, scope).Checked? ==> Strip(Check(n, scope).node) == Strip(n)
    decreases n
  {
    hide CheckOperator, CheckArguments;
    match n.form
    case Operation(op, l, r) =>
      CheckKeepsTree(l, scope);
      CheckKeepsTree(r, scope);
      if Check(l, scope).Checked? && Check(r, scope).Checked? {
        OperatorKeepsTree(op, Check(l, scope).node, Check(r, scope).node);
      }
    case Invocation(p, args) =>
      CheckKeepsTree(p, scope);
      if Check(p, scope).Checked? && Check(p, scope).node.inferred.value.Signature? {
        CheckKeepsArguments(args, Check(p, scope).node.inferred.value.parameters, scope);
      }
    case _ =>
  }

  lemma OperatorKeepsTree(op: Operator, l: Node, r: Node)
    requires l.inferred.Some? && r.inferred.Some?
    ensures CheckOperator(op, l, r).Checked? ==>
              Strip(CheckOperator(op, l, r).node) == Node(Operation(op, Strip(l), Strip(r)), None)
  {
    hide Strip, ImplicitCast, Builtin, Coercible, OppositeSigns, Larger;
    var c := CheckOperator(op, l, r);
    if c.Checked? {
      CastsKeepTree(l);
      CastsKeepTree(r);
      StripTyped(op, c.node.form.lhs, c.node.form.rhs, c.node.inferred.value);
    }
  }

  lemma CastsKeepTree(n: Node)
    requires n.inferred.Some?
    ensures forall ty :: ImplicitCast(n, ty).Some? ==> Strip(ImplicitCast(n, ty).value) == Strip(n)
    ensures forall ty :: Unsigneds(n.inferred.value, ty) ==> ImplicitCast(n, ty).Some?
  {}

  lemma StripTyped(op: Operator, l: Node, r: Node, ty: Type)
    ensures Strip(Typed(op, l, r, ty)) == Node(Operation(op, Strip(l), Strip(r)), None)
  {}

  lemma {:induction false} CheckKeepsArguments(args: seq<Node>, parameters: seq<Type>, scope: Scope)
    ensures CheckArguments(args, parameters, scope).CheckedArguments? ==>
              StripAll(CheckArguments(args, parameters, scope).nodes) == StripAll(args)
    decreases args
  {
    hide Check, Strip;
    if args != [] {
      CheckKeepsTree(args[0], scope);
      var parameters' := if parameters == [] then [] else parameters[1..];
      CheckKeepsArguments(args[1..], parameters', scope);
      var c := CheckArguments(args, parameters, scope);
      if c.CheckedArguments? {
        assert c.nodes[1..] == CheckArguments(args[1..], parameters', scope).nodes;
      }
    }
  }

  // ----- what code generation relies on -----

  /** A conversion that never loses: not narrower, floating point stays, signedness stays. */
  predicate Widens(from: Type, to: Type)
  {
    && Numerical(from) && Numerical(to)
    && from.size <= to.size
    && (from.kind == Floating ==> to.kind == Floating)
    && (to.kind == from.kind || to.kind == Floating)
  }

  /** An operand is a checked tree, or one conversion of it. */
  predicate Operand(n: Node, widening: bool)
    decreases n, 1
  {
    if n.form.Conversion? then
      && n.inferred.Some?
      && ReadyForCode(n.form.expression)
      && (widening ==> Widens(n.form.expression.inferred.value, n.inferred.value))
    else ReadyForCode(n)
  }

  /** Every node has a type other than poison; both operands of every operator have the same
      type; conversions occur only as operands, and only those of an assignment may lose. */
  predicate ReadyForCode(n: Node)
    decreases n, 0
  {
    && n.inferred.Some? && n.inferred.value != POISON
    && match n.form
       case Constant(_) => true
       case Reference(_) => true
       case Operation(op, l, r) => Operand(l, op != Assign) && Operand(r, op != Assign) && l.inferred == r.inferred
       case Invocation(p, args) =>
         ReadyForCode(p) && p.inferred.value.Signature? && RightCount(p.inferred.value, |args|) &&
         AllReady(args, p.inferred.value.parameters)
       case Conversion(_) => false
  }

  predicate AllReady(ns: seq<Node>, parameters: seq<Type>)
  {
    if ns == [] then true
    else
      && ReadyForCode(ns[0])
      && (parameters != [] ==> ns[0].inferred == Some(parameters[0]))
      && AllReady(ns[1..], if parameters == [] then [] else parameters[1..])
  }

  lemma {:induction false} CoercedReady(l: Node, r: Node)
    requires ReadyForCode(l) && ReadyForCode(r) && Proper(l.inferred.value) && Proper(r.inferred.value)
    requires CoerceTypes(l, r).Coerced?
    ensures var c := CoerceTypes(l, r); Operand(c.lhs, true) && Operand(c.rhs, true)
  {}

  lemma {:induction false} BitwiseReady(op: Operator, l: Node, r: Node)
    requires ReadyForCode(l) && ReadyForCode(r) && CategoryOf(op) == Bitwise && Clean(CheckOperator(op, l, r))
    ensures var o := CheckOperator(op, l, r).node.form; Operand(o.lhs, true) && Operand(o.rhs, true)
  {}

  lemma {:induction false} AssignmentReady(op: Operator, l: Node, r: Node)
    requires ReadyForCode(l) && ReadyForCode(r) && CategoryOf(op) == Assignment && Clean(CheckOperator(op, l, r))
    ensures var o := CheckOperator(op, l, r).node.form; Operand(o.lhs, false) && Operand(o.rhs, false)
  {}

  lemma {:induction false} OperatorReady(op: Operator, l: Node, r: Node)
    requires ReadyForCode(l) && ReadyForCode(r) && Proper(l.inferred.value) && Proper(r.inferred.value)
    requires Clean(CheckOperator(op, l, r))
    ensures ReadyForCode(CheckOperator(op, l, r).node)
  {
    hide CoerceTypes, ImplicitCast, OperationType;
    OperatorExact(op, l, r);
    match CategoryOf(op)
    case Arithmetic => CoercedReady(l, r);
    case Comparison => CoercedReady(l, r);
    case Bitwise => BitwiseReady(op, l, r);
    case ShortCircuit =>
    case Assignment => AssignmentReady(op, l, r);
  }

  /** After a check without errors the tree is what code generation asserts. */
  lemma {:induction false} CleanTreesAreReady(n: Node, scope: Scope)
    requires Fresh(n) && ProperScope(scope) && Clean(Check(n, scope))
    ensures ReadyForCode(Check(n, scope).node)
    decreases n
  {
    hide CheckOperator, CheckArguments, OperationType;
    AcceptsExactlyTheTyped(n, scope);
    match n.form
    case Operation(op, l, r) =>
      CleanTreesAreReady(l, scope);
      CleanTreesAreReady(r, scope);
      AcceptsExactlyTheTyped(l, scope);
      AcceptsExactlyTheTyped(r, scope);
      OperatorReady(op, Check(l, scope).node, Check(r, scope).node);
    case Invocation(p, args) =>
      CleanTreesAreReady(p, scope);
      CleanArgumentsAreReady(args, Check(p, scope).node.inferred.value.parameters, scope);
    case _ =>
  }

  lemma {:induction false} CleanArgumentsAreReady(args: seq<Node>, parameters: seq<Type>, scope: Scope)
    requires AllFresh(args) && ProperScope(scope)
    requires CheckArguments(args, parameters, scope).CheckedArguments? &&
             CheckArguments(args, parameters, scope).errors == 0
    ensures AllReady(CheckArguments(args, parameters, scope).nodes, parameters)
    decreases args
  {
    hide Check, ReadyForCode;
    if args != [] {
      CleanTreesAreReady(args[0], scope);
      AcceptsExactlyTheTyped(args[0], scope);
      var parameters' := if parameters == [] then [] else parameters[1..];
      CleanArgumentsAreReady(args[1..], parameters', scope);
      var c := CheckArguments(args, parameters, scope);
      assert c.nodes[1..] == CheckArguments(args[1..], parameters', scope).nodes;
    }
  }

  // ----- where the checker or the code generator gives up -----

  /** Coercion finds no type exactly when a bool stands left of a wider integer. */
  lemma CoercionCrashesExactly(l: Node, r: Node)
    requires l.inferred.Some? && r.inferred.Some? && Proper(l.inferred.value) && Proper(r.inferred.value)
    ensures CoerceTypes(l, r) == NoSuchType <==>
              l.inferred.value == BOOLEAN && Integer(r.inferred.value) && r.inferred.value.size > 1
  {}

  /** The conversions that code generation implements. */
  predicate CastImplemented(from: Type, to: Type)
  {
    && from.Basic? && to.Basic?
    && match (from.kind, to.kind)
       case (SignedInteger, SignedInteger) => from.size != to.size
       case (SignedInteger, Floating) => true
       case (UnsignedInteger, Floating) => true
       case (Floating, Floating) => from.size != to.size
       case _ => false
  }

  predicate Implemented(from: Node, to: Node)
    requires from.inferred.Some?
  {
    to == from || (to.inferred.Some? && CastImplemented(from.inferred.value, to.inferred.value))
  }

  /** Coerced operands reach code generation with an implemented conversion unless both are
      unsigned and of different sizes. */
  lemma CoercedCastsAreImplementedUnlessUnsigned(l: Node, r: Node)
    requires l.inferred.Some? && r.inferred.Some? && Proper(l.inferred.value) && Proper(r.inferred.value)
    requires CoerceTypes(l, r).Coerced?
    ensures var c := CoerceTypes(l, r);
            Implemented(l, c.lhs) && Implemented(r, c.rhs)
            <==> !(Unsigneds(l.inferred.value, r.inferred.value) && l.inferred.value.size != r.inferred.value.size)
  {}
}
