// From the checker to code generation: a checked tree of integers and booleans as the tree
// that code generation walks, and which of them it translates faithfully.
module TypedTrees {
  import opened Words
  import opened Tree
  import opened CounterWords
  import opened Desugaring
  import G = Grammar
  import T = Types
  import opened TypeChecker
  import opened TypeSoundness

  /** The types of integers and booleans. */
  predicate HasWords(t: T.Type) { t == T.BOOLEAN || (T.Integer(t) && T.Builtin(t)) }

  function WordType(t: T.Type): IntType
    requires HasWords(t)
  {
    if t == T.BOOLEAN then Bool else Int(t.kind == T.SignedInteger, t.size)
  }

  predicate OnWords(n: T.Node) { n.inferred.Some? && HasWords(n.inferred.value) }

  /** A checked tree of integers and booleans: nothing in it assigns, is a floating-point
      number, or calls anything but a name. */
  predicate Integral(n: T.Node): (r: bool)
    ensures r ==> OnWords(n)
  {
    OnWords(n) &&
    match n.form
    case Constant(_) => true
    case Reference(_) => true
    case Operation(op, l, r) => op != G.Assign && Integral(l) && Integral(r)
    case Invocation(p, args) => p.form.Reference? && AllIntegral(args)
    case Conversion(e) => Integral(e)
  }

  predicate AllIntegral(ns: seq<T.Node>)
  {
    ns == [] || (Integral(ns[0]) && AllIntegral(ns[1..]))
  }

  function OpOf(op: G.Operator): BinOp
  {
    match op
    case Asterisk => Mul case Slash => Div case Percent => BinOp.Mod case Plus => Add case Minus => Sub
    case Ampersand => BinOp.BitAnd case Bar => BinOp.BitOr case Caret => BinOp.BitXor
    case LeftShift => Shl case RightShift => Shr
    case EqualTo => Eq case Inequal => Ne
    case GreaterThanOrEqual => Ge case GreaterThan => Gt case LessThanOrEqual => Le case LessThan => Lt
    case _ => Eq
  }

  /** What names and literals stand for. */
  datatype Binding = Binding(decl: string -> DeclId, literal: T.Node -> int)

  function Translate(n: T.Node, b: Binding): Expr
    requires Integral(n)
    decreases n
  {
    match n.form
    case Constant(_) => Literal(b.literal(n))
    case Reference(x) => Local(b.decl(x))
    case Operation(op, l, r) =>
      if op == G.LogicalAnd || op == G.LogicalOr then
        Logical(op == G.LogicalAnd, Translate(l, b), Translate(r, b))
      else
        Binary(OpOf(op), WordType(l.inferred.value), Translate(l, b), Translate(r, b))
    case Invocation(p, args) => Call(p.form.name, TranslateAll(args, b))
    case Conversion(e) => Cast(WordType(e.inferred.value), WordType(n.inferred.value), Translate(e, b))
  }

  function TranslateAll(ns: seq<T.Node>, b: Binding): (es: seq<Expr>)
    requires AllIntegral(ns)
    ensures |es| == |ns|
    decreases ns
  {
    if ns == [] then [] else [Translate(ns[0], b)] + TranslateAll(ns[1..], b)
  }

  // ----- where code generation is not faithful -----

  /** The operators that go wrong on booleans. */
  predicate OrdersOrDivides(op: G.Operator)
  {
    op in {G.Slash, G.Percent, G.GreaterThanOrEqual, G.GreaterThan, G.LessThanOrEqual, G.LessThan}
  }

  /** Nothing orders or divides booleans, and no unsigned number is converted. */
  predicate Sound(n: T.Node)
    requires Integral(n)
  {
    match n.form
    case Operation(op, l, r) => !(OrdersOrDivides(op) && l.inferred.value == T.BOOLEAN) && Sound(l) && Sound(r)
    case Invocation(_, args) => AllSound(args)
    case Conversion(e) => e.inferred.value.kind != T.UnsignedInteger && Sound(e)
    case _ => true
  }

  predicate AllSound(ns: seq<T.Node>)
    requires AllIntegral(ns)
  {
    ns == [] || (Sound(ns[0]) && AllSound(ns[1..]))
  }

  /** The node itself, or one conversion of it. */
  predicate Wraps(n: T.Node, inner: T.Node) { n == inner || n.form == T.Conversion(inner) }

  /** A clean operator: its operands are those checked, or one conversion of them. */
  lemma CleanOperator(op: G.Operator, l: T.Node, r: T.Node)
    requires l.inferred.Some? && r.inferred.Some? && T.Proper(l.inferred.value) && T.Proper(r.inferred.value)
    requires Clean(CheckOperator(op, l, r))
    ensures var o := CheckOperator(op, l, r).node.form;
            && o.Operation? && o.op == op && Wraps(o.lhs, l) && Wraps(o.rhs, r) && o.lhs.inferred == o.rhs.inferred
            && o.lhs.inferred.Some?
            && (T.CategoryOf(op) == T.Bitwise ==>
                  o.lhs.inferred.value.Basic? && o.lhs.inferred.value.kind == T.UnsignedInteger)
            && (op != G.Assign && Integral(o.lhs) ==> KeepsKind(o.lhs, l))
            && (op != G.Assign && Integral(o.rhs) ==> KeepsKind(o.rhs, r))
  {
    hide AllIntegral;
    OperatorExact(op, l, r);
  }

  /** Without floating point, a conversion in an operand stays among the signed or among the
      unsigned integers. */
  predicate KeepsKind(n: T.Node, inner: T.Node)
    requires inner.inferred.Some?
  {
    n == inner ||
    (&& n.inferred.Some? && T.Integer(inner.inferred.value) && T.Integer(n.inferred.value)
     && n.inferred.value.kind == inner.inferred.value.kind)
  }

  /** Code generation's condition on an expression, for locals that are all declared. */
  ghost predicate Accepted(e: Expr) { ExprOk(e, _ => true) }

  lemma WrappedIsAccepted(n: T.Node, inner: T.Node, b: Binding)
    requires Integral(n) && Integral(inner) && Wraps(n, inner) && KeepsKind(n, inner)
    requires Accepted(Translate(inner, b)) <==> Sound(inner)
    ensures Accepted(Translate(n, b)) <==> Sound(n)
  {}

  lemma FaithfulOperator(op: G.Operator, t: T.Type)
    requires HasWords(t) && op != G.Assign && T.CategoryOf(op) != T.ShortCircuit
    requires T.CategoryOf(op) == T.Bitwise ==> t.kind == T.UnsignedInteger
    ensures Faithful(OpOf(op), WordType(t)) <==> !(OrdersOrDivides(op) && t == T.BOOLEAN)
  {}

  /** A clean tree of integers and booleans is one for which code generation is proved, exactly
      if nothing in it orders or divides booleans or converts unsigned numbers. */
  lemma {:induction false} CleanTreesAreAcceptedExactly(n: T.Node, scope: Scope, b: Binding)
    requires T.Fresh(n) && ProperScope(scope) && Clean(Check(n, scope)) && Integral(Check(n, scope).node)
    ensures Accepted(Translate(Check(n, scope).node, b)) <==> Sound(Check(n, scope).node)
    decreases n, 1
  {
    hide CheckOperator, CheckArguments, OperationType, Translate, Sound, Accepted;
    AcceptsExactlyTheTyped(n, scope);
    match n.form
    case Operation(op, l, r) =>
      var l', r' := Check(l, scope).node, Check(r, scope).node;
      AcceptsExactlyTheTyped(l, scope);
      AcceptsExactlyTheTyped(r, scope);
      CleanOperator(op, l', r');
      var o := Check(n, scope).node;
      WrappedIsIntegral(o.form.lhs, l');
      WrappedIsIntegral(o.form.rhs, r');
      CleanTreesAreAcceptedExactly(l, scope, b);
      CleanTreesAreAcceptedExactly(r, scope, b);
      WrappedIsAccepted(o.form.lhs, l', b);
      WrappedIsAccepted(o.form.rhs, r', b);
      OperatorIsAccepted(o, b);
    case Invocation(p, args) =>
      var s := Check(p, scope).node.inferred.value;
      var args' := Check(n, scope).node.form.arguments;
      ArgumentsAreAcceptedExactly(args, s.parameters, scope, b);
      CallIsAccepted(Check(n, scope).node, b);
    case Constant(_) => LeafIsAccepted(Check(n, scope).node, b);
    case Reference(_) => LeafIsAccepted(Check(n, scope).node, b);
    case Conversion(_) =>
  }

  lemma WrappedIsIntegral(n: T.Node, inner: T.Node)
    requires Integral(n) && Wraps(n, inner)
    ensures Integral(inner)
  {}

  lemma LeafIsAccepted(n: T.Node, b: Binding)
    requires Integral(n) && (n.form.Constant? || n.form.Reference?)
    ensures Accepted(Translate(n, b)) && Sound(n)
  {}

  lemma OperatorIsAccepted(o: T.Node, b: Binding)
    requires Integral(o) && o.form.Operation? && o.form.lhs.inferred == o.form.rhs.inferred
    requires T.CategoryOf(o.form.op) == T.Bitwise ==> o.form.lhs.inferred.value.kind == T.UnsignedInteger
    requires Accepted(Translate(o.form.lhs, b)) <==> Sound(o.form.lhs)
    requires Accepted(Translate(o.form.rhs, b)) <==> Sound(o.form.rhs)
    ensures Accepted(Translate(o, b)) <==> Sound(o)
  {
    hide Faithful, OpOf, WordType;
    if T.CategoryOf(o.form.op) != T.ShortCircuit {
      FaithfulOperator(o.form.op, o.form.lhs.inferred.value);
    }
  }

  ghost predicate AllAccepted(es: seq<Expr>) { forall i :: 0 <= i < |es| ==> Accepted(es[i]) }

  lemma CallIsAccepted(n: T.Node, b: Binding)
    requires Integral(n) && n.form.Invocation?
    requires AllAccepted(TranslateAll(n.form.arguments, b)) <==> AllSound(n.form.arguments)
    ensures Accepted(Translate(n, b)) <==> Sound(n)
  {
    var e := Translate(n, b);
    assert Accepted(e) <==> AllAccepted(e.arguments);
  }

  lemma {:induction false} ArgumentsAreAcceptedExactly(args: seq<T.Node>, parameters: seq<T.Type>, scope: Scope,
                                                       b: Binding)
    requires T.AllFresh(args) && ProperScope(scope)
    requires var c := CheckArguments(args, parameters, scope);
             c.CheckedArguments? && c.errors == 0 && AllIntegral(c.nodes)
    ensures var ns := CheckArguments(args, parameters, scope).nodes;
            AllAccepted(TranslateAll(ns, b)) <==> AllSound(ns)
    decreases args, 0
  {
    hide Check, Accepted, Sound, Translate, Integral;
    if args != [] {
      var parameters' := if parameters == [] then [] else parameters[1..];
      var ns := CheckArguments(args, parameters, scope).nodes;
      var rest := CheckArguments(args[1..], parameters', scope).nodes;
      assert ns == [Check(args[0], scope).node] + rest && ns[1..] == rest;
      CleanTreesAreAcceptedExactly(args[0], scope, b);
      ArgumentsAreAcceptedExactly(args[1..], parameters', scope, b);
      FirstAccepted(Translate(ns[0], b), TranslateAll(rest, b));
    }
  }

  lemma FirstAccepted(e: Expr, es: seq<Expr>)
    ensures AllAccepted([e] + es) <==> Accepted(e) && AllAccepted(es)
  {
    hide Accepted;
    if AllAccepted([e] + es) {
      assert ([e] + es)[0] == e;
      forall i | 0 <= i < |es| ensures Accepted(es[i]) {
        assert ([e] + es)[i + 1] == es[i];
      }
    }
  }

  // ----- the counters of for loops -----

  function Widest(a: T.Type, t: T.Type): T.Type
    requires a.Basic? && t.Basic?
  {
    T.Basic(a.kind, Larger(a.size, t.size))
  }

  predicate IntegerWord(t: T.Type) { T.Builtin(t) && T.Integer(t) }

  /** Integers of one signedness. */
  predicate OneSign(a: T.Type, t: T.Type) { IntegerWord(a) && IntegerWord(t) && a.kind == t.kind }

  /** The counter x of a for loop and its end or step, of types a and t. */
  predicate CounterOperands(x: string, e: T.Node, a: T.Type, t: T.Type, scope: Scope)
  {
    && OneSign(a, t) && x in scope && scope[x] == a && T.Fresh(e)
    && Clean(Check(e, scope)) && Check(e, scope).node.inferred == Some(t) && Integral(Check(e, scope).node)
  }

  function Infix(op: G.Operator, l: T.Node, r: T.Node): T.Node { T.Node(T.Operation(op, l, r), None) }

  function NameOf(x: string): T.Node { T.Node(T.Reference(x), None) }

  /** Both operands are brought to the wider type. */
  lemma {:induction false} OperandsAreWidened(op: G.Operator, x: string, e: T.Node, a: T.Type, t: T.Type,
                                                    scope: Scope, b: Binding)
    requires CounterOperands(x, e, a, t, scope) && T.CategoryOf(op) in {T.Comparison, T.Arithmetic}
    ensures var c, w := Check(Infix(op, NameOf(x), e), scope), Widest(a, t);
            && Clean(c) && Integral(c.node)
            && c.node.inferred == Some(if T.CategoryOf(op) == T.Comparison then T.BOOLEAN else w)
            && Translate(c.node, b)
               == Binary(OpOf(op), WordType(w), Converted(WordType(a), WordType(w), Local(b.decl(x))),
                         Converted(WordType(t), WordType(w), Translate(Check(e, scope).node, b)))
  {
    hide OpOf, Check, Translate, WordType, Integral, ImplicitCast, CoerceTypes, Converted;
    NameIsChecked(x, a, scope, b);
    var l, r, w := Check(NameOf(x), scope).node, Check(e, scope).node, Widest(a, t);
    OneSignCoerced(l, r, a, t);
    CastTranslates(l, w, b);
    CastTranslates(r, w, b);
    InfixIsChecked(op, x, e, a, t, scope);
    InfixTranslates(op, ImplicitCast(l, w).value, ImplicitCast(r, w).value, w, b);
  }

  lemma NameIsChecked(x: string, a: T.Type, scope: Scope, b: Binding)
    requires x in scope && scope[x] == a && IntegerWord(a)
    ensures var c := Check(NameOf(x), scope);
            Clean(c) && c.node.inferred == Some(a) && Integral(c.node) && Translate(c.node, b) == Local(b.decl(x))
  {}

  lemma OneSignCoerced(l: T.Node, r: T.Node, a: T.Type, t: T.Type)
    requires OneSign(a, t) && l.inferred == Some(a) && r.inferred == Some(t)
    ensures var w := Widest(a, t);
            && ImplicitCast(l, w).Some? && ImplicitCast(r, w).Some?
            && CoerceTypes(l, r) == Coerced(ImplicitCast(l, w).value, ImplicitCast(r, w).value, w)
  {}

  lemma InfixIsChecked(op: G.Operator, x: string, e: T.Node, a: T.Type, t: T.Type, scope: Scope)
    requires CounterOperands(x, e, a, t, scope) && T.CategoryOf(op) in {T.Comparison, T.Arithmetic}
    ensures var l, r := Check(NameOf(x), scope).node, Check(e, scope).node;
            && l.inferred == Some(a) && r.inferred == Some(t)
            && Check(Infix(op, NameOf(x), e), scope) == CheckOperator(op, l, r)
  {
    hide CheckOperator;
    var l := Check(NameOf(x), scope).node;
    assert l.inferred == Some(a);
    assert CheckOperator(op, l, Check(e, scope).node).Checked? by {
      OneSignCoerced(l, Check(e, scope).node, a, t);
      CheckedIfCoerced(op, l, Check(e, scope).node);
    }
  }

  lemma CheckedIfCoerced(op: G.Operator, l: T.Node, r: T.Node)
    requires l.inferred.Some? && r.inferred.Some? && T.CategoryOf(op) in {T.Comparison, T.Arithmetic}
    requires CoerceTypes(l, r).Coerced?
    ensures CheckOperator(op, l, r).Checked?
  {
    hide CoerceTypes;
  }

  lemma InfixTranslates(op: G.Operator, l: T.Node, r: T.Node, w: T.Type, b: Binding)
    requires Integral(l) && Integral(r) && IntegerWord(w) && l.inferred == r.inferred == Some(w)
    requires T.CategoryOf(op) in {T.Comparison, T.Arithmetic}
    ensures forall ty :: HasWords(ty) ==>
              var n := Typed(op, l, r, ty);
              Integral(n) && Translate(n, b) == Binary(OpOf(op), WordType(w), Translate(l, b), Translate(r, b))
  {}

  lemma CastTranslates(n: T.Node, w: T.Type, b: Binding)
    requires Integral(n) && OneSign(n.inferred.value, w)
    ensures var c := ImplicitCast(n, w);
            && c.Some? && Integral(c.value) && c.value.inferred == Some(w)
            && Translate(c.value, b)
               == Converted(WordType(n.inferred.value), WordType(w), Translate(n, b))
  {}

  /** The test of a desugared for loop, checked: `TestExpr` with these types. */
  lemma {:induction false} TestIsChecked(op: G.Operator, x: string, end: T.Node, a: T.Type, t: T.Type, next: IntType,
                                         scope: Scope, b: Binding)
    requires CounterOperands(x, end, a, t, scope) && T.CategoryOf(op) == T.Comparison
    ensures var c, w := Check(Infix(op, NameOf(x), end), scope), WordType(Widest(a, t));
            && Clean(c) && Integral(c.node)
            && Translate(c.node, b) == TestExpr(b.decl(x), CounterTypes(WordType(a), w, next), OpOf(op),
                                                Converted(WordType(t), w, Translate(Check(end, scope).node, b)))
  {
    hide OpOf, Check, Translate;
    OperandsAreWidened(op, x, end, a, t, scope, b);
  }

  /** Its step, checked: the value assigned to the counter is `NextExpr` with these types. */
  lemma {:induction false} StepIsChecked(cmp: BinOp, x: string, step: T.Node, a: T.Type, t: T.Type, test: IntType,
                                         scope: Scope, b: Binding)
    requires CounterOperands(x, step, a, t, scope) && IsRange(cmp)
    ensures var sum := Infix(if cmp in {Lt, Le} then G.Plus else G.Minus, NameOf(x), step);
            var c, w := Check(Infix(G.Assign, NameOf(x), sum), scope), WordType(Widest(a, t));
            && Clean(c) && c.node.form.Operation? && Integral(c.node.form.rhs)
            && Translate(c.node.form.rhs, b)
               == NextExpr(b.decl(x), CounterTypes(WordType(a), test, w), cmp,
                           Converted(WordType(t), w, Translate(Check(step, scope).node, b)))
  {
    hide Check, Translate, OpOf;
    var op := if cmp in {Lt, Le} then G.Plus else G.Minus;
    var sum := Infix(op, NameOf(x), step);
    OperandsAreWidened(op, x, step, a, t, scope, b);
    CastTranslates(Check(sum, scope).node, a, b);
    AssignedIsCast(x, sum, a, scope);
    PlusAndMinus();
  }

  lemma PlusAndMinus()
    ensures OpOf(G.Plus) == Add && OpOf(G.Minus) == Sub
  {}

  lemma AssignedIsCast(x: string, e: T.Node, a: T.Type, scope: Scope)
    requires x in scope && scope[x] == a
    requires Clean(Check(e, scope)) && Check(e, scope).node.inferred.Some?
    requires OneSign(a, Check(e, scope).node.inferred.value)
    ensures var c := Check(Infix(G.Assign, NameOf(x), e), scope);
            && Clean(c) && c.node.form.Operation?
            && Some(c.node.form.rhs) == ImplicitCast(Check(e, scope).node, a)
  {
    hide CheckInvocation, Unsigneds;
    var l := Check(NameOf(x), scope).node;
    assert l.inferred == Some(a);
  }

  /** So the types of a counter fit, whatever the widths of end and step. */
  lemma CheckedTypesFit(a: T.Type, end: T.Type, step: T.Type)
    requires OneSign(a, end) && OneSign(a, step)
    ensures Fitting(CounterTypes(WordType(a), WordType(Widest(a, end)), WordType(Widest(a, step))))
  {}
}
