// Structured code to basic blocks: what the moving insert point of `IrCompiler` builds,
// as functions on builder states.
module Lowering {
  import opened Words
  import opened Tree
  import opened Ir

  /** The function under construction: its blocks, the order in which blocks have been
      inserted into it, the insert point, and the number of values made so far. */
  datatype RawBuilder = Builder(blocks: Code, layout: seq<nat>, cur: nat, regs: nat)

  type Builder = b: RawBuilder | b.cur < |b.blocks| witness Builder([[]], [0], 0, 0)

  type Slots = map<DeclId, nat>

  datatype Context = Context(slots: Slots, steps: seq<Step>, brk: Option<nat>, cont: Option<nat>)

  function Emit(b: Builder, i: Instr): Builder
  {
    b.(blocks := b.blocks[b.cur := b.blocks[b.cur] + [i]])
  }

  /** Emits an instruction whose value is numbered b.regs. */
  function EmitValue(b: Builder, i: Instr): Builder
  {
    Emit(b, i).(regs := b.regs + 1)
  }

  function Create(b: Builder, insert: bool): Builder
  {
    b.(blocks := b.blocks + [[]], layout := if insert then b.layout + [|b.blocks|] else b.layout)
  }

  function Insert(b: Builder, blk: nat): Builder { b.(layout := b.layout + [blk]) }

  function At(b: Builder, blk: nat): Builder
    requires blk < |b.blocks|
  {
    b.(cur := blk)
  }

  predicate Terminated(b: Builder)
  {
    var ii := b.blocks[b.cur];
    |ii| > 0 && ii[|ii| - 1].IsTerminator()
  }

  function BrIfOpen(b: Builder, t: nat): Builder
  {
    if Terminated(b) then b else Emit(b, Br(t))
  }

  function SlotOf(slots: Slots, d: DeclId): nat { if d in slots then slots[d] else 0 }

  // ----- expressions -----

  function GenExpr(e: Expr, slots: Slots, b: Builder): (r: (Operand, Builder))
    ensures |r.1.blocks| >= |b.blocks|
    decreases e, 2
  {
    match e
    case Literal(v) => (Const(v), b)
    case Argument(i) => (Param(i), b)
    case Local(d) => (Reg(b.regs), EmitValue(b, Load(b.regs, Reg(SlotOf(slots, d)))))
    case Binary(op, ty, l, r) =>
      var (x, b1) := GenExpr(l, slots, b);
      var (y, b2) := GenExpr(r, slots, b1);
      (Reg(b2.regs), EmitValue(b2, Compute(b2.regs, Select(op, ty), ty.Width(), x, y)))
    case Logical(conj, _, _) => Diamond(e, b.regs, |b.blocks|, slots, LogicalStart(conj, b))
    case Call(callee, es) =>
      var (os, b1) := GenAll(es, slots, b);
      (Reg(b1.regs), EmitValue(b1, Invoke(b1.regs, callee, os)))
    case Cast(from, to, x) =>
      var (o, b1) := GenExpr(x, slots, b);
      (Reg(b1.regs), EmitValue(b1, IntCast(b1.regs, from.Width(), to.Width(), o)))
  }

  /** The temporary that holds the result, preset to the short-circuit value, and the three
      blocks lhs-true, rhs-true and end. */
  function LogicalStart(conj: bool, b: Builder): (r: Builder)
    ensures |r.blocks| == |b.blocks| + 3
  {
    var b1 := Emit(EmitValue(b, Alloca(b.regs)), Store(Const(BoolWord(!conj)), Reg(b.regs)));
    Create(Create(Create(b1, true), true), true)
  }

  /** Goes on to `target` when the operand does not decide the result, to the end if it does. */
  function LogicalTest(conj: bool, x: Operand, target: nat, first: nat, b: Builder): (r: Builder)
    requires target < |b.blocks|
    ensures |r.blocks| == |b.blocks|
  {
    var b1 := EmitValue(b, Compute(b.regs, IcmpEq, 1, x, Const(BoolWord(conj))));
    At(Emit(b1, CondBr(Reg(b.regs), target, first + 2)), target)
  }

  function LogicalResult(conj: bool, temp: Operand, first: nat, b: Builder): (r: (Operand, Builder))
    requires first + 2 < |b.blocks|
    ensures |r.1.blocks| == |b.blocks|
  {
    var b1 := At(Emit(Emit(b, Store(Const(BoolWord(conj)), temp)), Br(first + 2)), first + 2);
    (Reg(b1.regs), EmitValue(b1, Load(b1.regs, temp)))
  }

  /** Both operands and the join, from the state s in which the first operand starts. */
  function Diamond(e: Expr, temp: nat, first: nat, slots: Slots, s: Builder): (r: (Operand, Builder))
    requires e.Logical? && first + 2 < |s.blocks|
    ensures |r.1.blocks| >= |s.blocks|
    decreases e, 1
  {
    var b1 := GenTested(e.conj, e.lhs, first, first, slots, s);
    LogicalResult(e.conj, Reg(temp), first, GenTested(e.conj, e.rhs, first + 1, first, slots, b1))
  }

  /** An operand of && or || and the test of its value. */
  function GenTested(conj: bool, e: Expr, target: nat, first: nat, slots: Slots, b: Builder): (r: Builder)
    requires target < |b.blocks|
    ensures |r.blocks| >= |b.blocks|
    decreases e, 3
  {
    var (x, b1) := GenExpr(e, slots, b);
    LogicalTest(conj, x, target, first, b1)
  }

  function GenAll(es: seq<Expr>, slots: Slots, b: Builder): (r: (seq<Operand>, Builder))
    ensures |r.1.blocks| >= |b.blocks|
    decreases es
  {
    if es == [] then ([], b) else
      var (o, b1) := GenExpr(es[0], slots, b);
      var (os, b2) := GenAll(es[1..], slots, b1);
      ([o] + os, b2)
  }

  // ----- statements -----

  function GenStore(d: DeclId, e: Expr, slots: Slots, b: Builder): (r: Builder)
    ensures |r.blocks| >= |b.blocks|
  {
    var (o, b1) := GenExpr(e, slots, b);
    Emit(b1, Store(o, Reg(SlotOf(slots, d))))
  }

  function GenStep(s: Step, slots: Slots, b: Builder): (r: Builder)
    ensures |r.blocks| >= |b.blocks|
  {
    match s
    case NoStep => b
    case Step(d, e) => GenStore(d, e, slots, b)
  }

  function GenSteps(steps: seq<Step>, slots: Slots, b: Builder): (r: Builder)
    ensures |r.blocks| >= |b.blocks|
  {
    if steps == [] then b else GenSteps(steps[1..], slots, GenStep(steps[0], slots, b))
  }

  function GenStmt(s: Stmt, x: Context, b: Builder): (r: Builder)
    ensures |r.blocks| >= |b.blocks|
    decreases s, 1
  {
    match s
    case Declare(d, e) => GenStore(d, e, x.slots, b)
    case Assign(d, e) => GenStore(d, e, x.slots, b)
    case Evaluate(e) => GenExpr(e, x.slots, b).1
    case Nested(body) => GenBlock(body, x, b)
    case ErrorBlock(_) => b
    case If(c, _, _) => Branches(s, x, IfStart(c, x.slots, b))
    case While(_, _, _) => Loop(s, x, |b.blocks|, WhileEntry(b))
    case For(_, _, _, _, _, _, _) => b  // the back end has no case for it
    case Break => if x.brk.Some? then Emit(b, Br(x.brk.value)) else b
    case Continue => if x.cont.Some? then Emit(b, Br(x.cont.value)) else b
    case Return(None) => Emit(b, Ret(None))
    case Return(Some(e)) => var (o, b1) := GenExpr(e, x.slots, b); Emit(b1, Ret(Some(o)))
  }

  /** The arms of an if, whose blocks then, else and done are the last three of b. */
  function Branches(s: Stmt, x: Context, b: Builder): (r: Builder)
    requires s.If? && |b.blocks| >= 3
    ensures |r.blocks| >= |b.blocks|
    decreases s, 0
  {
    var done := |b.blocks| - 1;
    var b1 := Insert(GenArm(s.thn, x, done - 2, done, b), done - 1);
    At(Insert(GenArm(s.els, x, done - 1, done, b1), done), done)
  }

  /** The context of a loop's body. */
  function BodyContext(x: Context, step: Step, head: nat): Context
  {
    Context(x.slots, x.steps + [step], Some(head + 2), Some(head))
  }

  /** The test and the body of a loop whose blocks head, body and done are numbered from head. */
  function Loop(s: Stmt, x: Context, head: nat, b: Builder): (r: Builder)
    requires s.While? && head + 2 < |b.blocks|
    ensures |r.blocks| >= |b.blocks|
    decreases s, 0
  {
    At(GenArm(s.body, BodyContext(x, s.prologue, head), head + 1, head, LoopTest(s.cond, x.slots, head, b)), head + 2)
  }

  /** A block of statements in basic block `blk`, followed by a branch to `next` unless it
      ends in a terminator. */
  function GenArm(ss: seq<Stmt>, x: Context, blk: nat, next: nat, b: Builder): (r: Builder)
    requires blk < |b.blocks|
    ensures |r.blocks| >= |b.blocks|
    decreases ss, 1
  {
    BrIfOpen(GenBlock(ss, x, At(b, blk)), next)
  }

  /** The condition, the blocks then, else and done (of which only the first is inserted
      yet), and the branch. */
  function IfStart(c: Expr, slots: Slots, b: Builder): (r: Builder)
    ensures |r.blocks| >= |b.blocks| + 3
  {
    var (o, b1) := GenExpr(c, slots, b);
    var b2 := EmitValue(b1, Compute(b1.regs, IcmpNe, 1, o, Const(0)));
    var thn := |b2.blocks|;
    var b3 := Create(Create(Create(b2, true), false), false);
    Emit(b3, CondBr(Reg(b1.regs), thn, thn + 1))
  }

  /** The blocks of a loop and the jump to its head. */
  function WhileEntry(b: Builder): (r: Builder)
    ensures |r.blocks| == |b.blocks| + 3 && r.cur == |b.blocks|
  {
    At(Emit(Create(Create(Create(b, true), true), true), Br(|b.blocks|)), |b.blocks|)
  }

  /** The code of a loop's head: the condition and the branch. */
  function LoopTest(c: Expr, slots: Slots, head: nat, b: Builder): (r: Builder)
    ensures |r.blocks| >= |b.blocks|
  {
    var (o, b1) := GenExpr(c, slots, b);
    var b2 := EmitValue(b1, Compute(b1.regs, IcmpNe, 1, o, Const(0)));
    Emit(b2, CondBr(Reg(b1.regs), head + 1, head + 2))
  }

  function GenBlock(ss: seq<Stmt>, x: Context, b: Builder): (r: Builder)
    ensures |r.blocks| >= |b.blocks|
    decreases ss, 0
  {
    if ss == [] then b
    else if ss[0].IsTerminator() then GenStmt(ss[0], x, GenSteps(x.steps, x.slots, b))
    else
      var b1 := GenStmt(ss[0], x, b);
      if |ss| == 1 then GenSteps(x.steps, x.slots, b1) else GenBlock(ss[1..], x, b1)
  }

  // ----- procedures -----

  /** One alloca per local, in the order of Tree.Locals; a local is named by the value
      number of its alloca. */
  function AllocLocals(ds: seq<DeclId>, slots: Slots, b: Builder): (r: (Slots, Builder))
    ensures |r.1.blocks| >= |b.blocks|
  {
    if ds == [] then (slots, b)
    else AllocLocals(ds[1..], slots[ds[0] := b.regs], EmitValue(b, Alloca(b.regs)))
  }

  const ENTRY_BUILDER: Builder := Builder([[]], [0], 0, 0)

  function GenProcedure(body: seq<Stmt>): Builder
  {
    var (slots, b) := AllocLocals(Locals(body), map[], ENTRY_BUILDER);
    GenBlock(body, Context(slots, [], None, None), b)
  }
}
