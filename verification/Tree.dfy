// The typed tree that code generation walks (node.h), with identifiers resolved to their
// declarations and operators annotated with the basic type of their operands.
module Tree {
  import opened Words

  type DeclId = nat

  datatype Expr =
    | Literal(value: int)
    | Argument(index: nat)
    | Local(decl: DeclId)
    | Binary(op: BinOp, ty: IntType, lhs: Expr, rhs: Expr)
    | Logical(conj: bool, lhs: Expr, rhs: Expr)  // && when conj, || otherwise
    | Call(callee: string, arguments: seq<Expr>)
    | Cast(from: IntType, to: IntType, operand: Expr)

  /** The type of a for loop's counter, and the types in which it is compared with the end and
      moved by the step: type checking widens operands and narrows what is assigned. */
  datatype CounterTypes = CounterTypes(counter: IntType, test: IntType, next: IntType)

  /** The expression, converted where the types differ. */
  function Converted(from: IntType, to: IntType, e: Expr): Expr { if from == to then e else Cast(from, to, e) }

  /** The prologue of a while loop: nothing, or `decl = value`. */
  datatype Step = NoStep | Step(decl: DeclId, value: Expr)

  datatype Stmt =
    | Declare(decl: DeclId, init: Expr)
    | Assign(decl: DeclId, value: Expr)
    | Evaluate(expr: Expr)
    | Nested(body: seq<Stmt>)
    | ErrorBlock(body: seq<Stmt>)  // a block marked with an expected compiler error
    | If(cond: Expr, thn: seq<Stmt>, els: seq<Stmt>)  // els is [] when there is no else block
    | While(cond: Expr, body: seq<Stmt>, prologue: Step)
    | For(counter: DeclId, ty: CounterTypes, begin: Option<Expr>, cmp: BinOp, end: Expr, step: Option<Expr>,
          body: seq<Stmt>)
    | Break
    | Continue
    | Return(result: Option<Expr>)
  {
    predicate IsTerminator() { Break? || Continue? || Return? }
  }

  // ----- traversals -----

  /** All locals an expression reads satisfy p, all its operators are ones for which opcode
      selection is faithful, and its casts are the ones code generation implements. */
  ghost predicate ExprOk(e: Expr, p: DeclId -> bool)
  {
    match e
    case Literal(_) => true
    case Argument(_) => true
    case Local(d) => p(d)
    case Binary(op, ty, l, r) => Faithful(op, ty) && ExprOk(l, p) && ExprOk(r, p)
    case Logical(_, l, r) => ExprOk(l, p) && ExprOk(r, p)
    case Call(_, es) => forall i :: 0 <= i < |es| ==> ExprOk(es[i], p)
    case Cast(from, to, x) => from.Int? && from.signed && to.Int? && to.signed && ExprOk(x, p)
  }

  ghost predicate StepOk(s: Step, p: DeclId -> bool)
  {
    s.Step? ==> p(s.decl) && ExprOk(s.value, p)
  }

  /** The same for every expression, assignment and declaration of a statement; break and
      continue occur in loops only; for loops have been desugared. */
  ghost predicate StmtOk(s: Stmt, p: DeclId -> bool, inLoop: bool)
  {
    match s
    case Declare(d, e) => p(d) && ExprOk(e, p)
    case Assign(d, e) => p(d) && ExprOk(e, p)
    case Evaluate(e) => ExprOk(e, p)
    case Nested(body) => BlockOk(body, p, inLoop)
    case ErrorBlock(_) => true
    case If(c, t, e) => ExprOk(c, p) && BlockOk(t, p, inLoop) && BlockOk(e, p, inLoop)
    case While(c, body, step) => ExprOk(c, p) && BlockOk(body, p, true) && StepOk(step, p)
    case For(_, _, _, _, _, _, _) => false
    case Break => inLoop
    case Continue => inLoop
    case Return(v) => v.Some? ==> ExprOk(v.value, p)
  }

  ghost predicate BlockOk(ss: seq<Stmt>, p: DeclId -> bool, inLoop: bool)
  {
    ss == [] || (StmtOk(ss[0], p, inLoop) && BlockOk(ss[1..], p, inLoop))
  }

  /** No for loop is left. */
  predicate NoFor(s: Stmt)
  {
    match s
    case Nested(body) => NoForIn(body)
    case ErrorBlock(body) => NoForIn(body)
    case If(_, t, e) => NoForIn(t) && NoForIn(e)
    case While(_, body, _) => NoForIn(body)
    case For(_, _, _, _, _, _, _) => false
    case _ => true
  }

  predicate NoForIn(ss: seq<Stmt>)
  {
    ss == [] || (NoFor(ss[0]) && NoForIn(ss[1..]))
  }

  /** The locals declared by a block in the order `allocate_locals` visits them; blocks
      with an expected compiler error are skipped. */
  function Locals(ss: seq<Stmt>): seq<DeclId>
  {
    if ss == [] then [] else LocalsOf(ss[0]) + Locals(ss[1..])
  }

  function LocalsOf(s: Stmt): seq<DeclId>
  {
    match s
    case Declare(d, _) => [d]
    case Nested(body) => Locals(body)
    case If(_, t, e) => Locals(t) + Locals(e)
    case While(_, body, _) => Locals(body)
    case _ => []
  }

  /** A block with a return among its own statements; type checking appends one to a void
      procedure that lacks it and refuses other procedures without it. */
  predicate TopReturn(ss: seq<Stmt>)
  {
    ss != [] && (ss[0].Return? || TopReturn(ss[1..]))
  }

  ghost predicate Distinct(ds: seq<DeclId>)
  {
    forall i, j :: 0 <= i < j < |ds| ==> ds[i] != ds[j]
  }

  function Declared(ss: seq<Stmt>): DeclId -> bool { d => d in Locals(ss) }

  /** A procedure body as accepted: every local it uses is declared in it once, break and
      continue occur in loops only, and the body has a return of its own. */
  ghost predicate BodyOk(body: seq<Stmt>)
  {
    Distinct(Locals(body)) && BlockOk(body, Declared(body), false) && TopReturn(body)
  }

  // ----- weakening the condition on locals -----

  lemma {:induction false} ExprOkWeaker(e: Expr, p: DeclId -> bool, q: DeclId -> bool)
    requires ExprOk(e, p) && forall d :: p(d) ==> q(d)
    ensures ExprOk(e, q)
  {
    match e
    case Binary(_, _, l, r) => ExprOkWeaker(l, p, q); ExprOkWeaker(r, p, q);
    case Logical(_, l, r) => ExprOkWeaker(l, p, q); ExprOkWeaker(r, p, q);
    case Call(_, es) => forall i | 0 <= i < |es| ensures ExprOk(es[i], q) { ExprOkWeaker(es[i], p, q); }
    case Cast(_, _, x) => ExprOkWeaker(x, p, q);
    case _ =>
  }

  lemma {:induction false} StmtOkWeaker(s: Stmt, p: DeclId -> bool, q: DeclId -> bool, inLoop: bool)
    requires StmtOk(s, p, inLoop) && forall d :: p(d) ==> q(d)
    ensures StmtOk(s, q, inLoop)
  {
    match s
    case Declare(_, e) => ExprOkWeaker(e, p, q);
    case Assign(_, e) => ExprOkWeaker(e, p, q);
    case Evaluate(e) => ExprOkWeaker(e, p, q);
    case Nested(body) => BlockOkWeaker(body, p, q, inLoop);
    case If(c, t, e) =>
      ExprOkWeaker(c, p, q);
      BlockOkWeaker(t, p, q, inLoop);
      BlockOkWeaker(e, p, q, inLoop);
    case While(c, body, step) =>
      ExprOkWeaker(c, p, q);
      BlockOkWeaker(body, p, q, true);
      if step.Step? { ExprOkWeaker(step.value, p, q); }
    case Return(v) => if v.Some? { ExprOkWeaker(v.value, p, q); }
    case _ =>
  }

  lemma {:induction false} BlockOkWeaker(ss: seq<Stmt>, p: DeclId -> bool, q: DeclId -> bool, inLoop: bool)
    requires BlockOk(ss, p, inLoop) && forall d :: p(d) ==> q(d)
    ensures BlockOk(ss, q, inLoop)
  {
    if ss != [] {
      StmtOkWeaker(ss[0], p, q, inLoop);
      BlockOkWeaker(ss[1..], p, q, inLoop);
    }
  }
}
