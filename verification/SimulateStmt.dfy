// Running the code of statements: control ends where the outcome says, with the locals
// and the trace that the emitted meaning gives them.
module SimulateStmt {
  import opened Words
  import opened Tree
  import opened Source
  import opened Ir
  import opened Lowering
  import opened Growth
  import opened SimulateExpr

  ghost predicate Injective(slots: Slots)
  {
    forall d, e :: d in slots && e in slots && slots[d] == slots[e] ==> d == e
  }

  /** The cells of the locals hold the values of env. */
  ghost predicate LocalsIn(mem: seq<int>, env: Env, slots: Slots)
  {
    forall d :: d in slots ==> slots[d] < |mem| && mem[slots[d]] == Get(env, d)
  }

  ghost predicate StepsOk(steps: seq<Step>, slots: Slots)
  {
    forall i :: 0 <= i < |steps| ==> StepOk(steps[i], InSlots(slots))
  }

  /** What code generation is entitled to assume about its context and insert point. */
  ghost predicate Prepared(x: Context, b: Builder, inLoop: bool)
  {
    && SlotsBelow(x.slots, b.regs)
    && Injective(x.slots)
    && StepsOk(x.steps, x.slots)
    && (inLoop ==> x.brk.Some? && x.cont.Some?)
  }

  /** Control is at an instruction of a block, with the given locals and trace. */
  ghost predicate Arrives(c: Config, blk: nat, pc: nat, st: State, slots: Slots)
  {
    c.Running? && c.blk == blk && c.pc == pc && Rel(c, st.env, slots) && c.trace == st.trace
  }

  /** How a run of n steps ends in configuration c: a statement that completes arrives at
      (blk, pc), break and continue arrive at their targets, return halts the function with
      its value, and a statement that was cut off is still running after at least one step
      for each round of fuel. */
  ghost predicate Ends(o: Outcome, st: State, x: Context, blk: nat, pc: nat, c: Config, fuel: nat, n: nat)
  {
    match o
    case Normal => Arrives(c, blk, pc, st, x.slots)
    case Broke => x.brk.Some? && Arrives(c, x.brk.value, 0, st, x.slots)
    case Continued => x.cont.Some? && Arrives(c, x.cont.value, 0, st, x.slots)
    case Returned(v) => c.Halted? && c.value == v && c.trace == st.trace && LocalsIn(c.mem, st.env, x.slots)
    case Timeout => c.Running? && c.trace == st.trace && n >= fuel
  }

  ghost predicate EndsHere(o: Outcome, st: State, x: Context, b: Builder, c: Config, fuel: nat, n: nat)
  {
    Ends(o, st, x, b.cur, |b.blocks[b.cur]|, c, fuel, n) && (o == Normal ==> !Terminated(b))
  }

  // ----- straight-line statements -----

  lemma {:induction false} StaysOpen(e: Expr, slots: Slots, b: Builder)
    requires !Terminated(b)
    ensures !Terminated(GenExpr(e, slots, b).1)
  {
    hide Diamond, LogicalStart, GenAll;
    if e.Logical? {
      DiamondStaysOpen(e, b.regs, |b.blocks|, slots, LogicalStart(e.conj, b));
    }
  }

  lemma DiamondStaysOpen(e: Expr, temp: nat, first: nat, slots: Slots, s: Builder)
    requires e.Logical? && first + 2 < |s.blocks|
    ensures !Terminated(Diamond(e, temp, first, slots, s).1)
  {}

  lemma {:induction false} SimStore(d: DeclId, e: Expr, x: Context, b: Builder, m: Machine, st: State, c: Config)
    returns (n: nat)
    requires Arrives(c, b.cur, |b.blocks[b.cur]|, st, x.slots) && SlotsBelow(x.slots, b.regs) && Injective(x.slots)
    requires d in x.slots && ExprOk(e, InSlots(x.slots))
    requires Extends(GenStore(d, e, x.slots, b).blocks, m.code)
    ensures var b' := GenStore(d, e, x.slots, b);
            Arrives(Run(m, c, n), b'.cur, |b'.blocks[b'.cur]|, SetTo(d, e, m.frame, st), x.slots) && !Terminated(b')
  {
    hide LogicalTest, Meaning, Next, Perform;
    var slots := x.slots;
    var (o, b1) := GenExpr(e, slots, b);
    var i := Store(o, Reg(slots[d]));
    GrowExpr(e, slots, b);
    EmitGrows(b1, b1, i);
    FitsEarlier(b1, Emit(b1, i), m.code);
    n := SimExpr(e, slots, b, m, st.env, c);
    var c1 := Run(m, c, n);
    PreservesRel(c, c1, st.env, slots, b.regs);
    NextIsEmitted(b1, i, m, c1);
    RunOnce(m, c, n);
    StoredRel(d, o, Eval(e, m.frame, st.env, st.trace).0, slots, m.frame, st.env, c1, b1.regs);
    n := n + 1;
  }

  lemma StoredRel(d: DeclId, o: Operand, v: int, slots: Slots, f: Frame, env: Env, c: Config, k: nat)
    requires Rel(c, env, slots) && Injective(slots) && d in slots && Delivers(o, v, c, f, k)
    ensures var c' := Perform(Store(o, Reg(slots[d])), c, f);
            && c'.Running? && c'.blk == c.blk && c'.pc == c.pc + 1 && c'.trace == c.trace
            && Rel(c', env[d := v], slots)
  {
    assert Holds(c, env, slots, d);
    var c' := Perform(Store(o, Reg(slots[d])), c, f);
    forall k | k in slots ensures Holds(c', env[d := v], slots, k) {
      assert Holds(c, env, slots, k);
    }
  }

  lemma {:induction false} SimSteps(steps: seq<Step>, x: Context, b: Builder, m: Machine, st: State, c: Config)
    returns (n: nat)
    requires Arrives(c, b.cur, |b.blocks[b.cur]|, st, x.slots) && SlotsBelow(x.slots, b.regs) && Injective(x.slots)
    requires StepsOk(steps, x.slots) && !Terminated(b)
    requires Extends(GenSteps(steps, x.slots, b).blocks, m.code)
    ensures var b' := GenSteps(steps, x.slots, b);
            Arrives(Run(m, c, n), b'.cur, |b'.blocks[b'.cur]|, TakeSteps(steps, m.frame, st), x.slots) &&
            !Terminated(b')
    decreases steps
  {
    hide SetTo;
    if steps == [] {
      n := 0;
    } else {
      var b1 := GenStep(steps[0], x.slots, b);
      GrowSteps(steps[1..], x.slots, b1);
      FitsEarlier(b1, GenSteps(steps[1..], x.slots, b1), m.code);
      n := 0;
      if steps[0].Step? {
        GrowStore(steps[0].decl, steps[0].value, x.slots, b);
        n := SimStore(steps[0].decl, steps[0].value, x, b, m, st, c);
      }
      var k := SimSteps(steps[1..], x, b1, m, TakeStep(steps[0], m.frame, st), Run(m, c, n));
      RunAdds(m, c, n, k);
      n := n + k;
    }
  }

  // ----- all statements -----

  lemma {:induction false} SimStmt(s: Stmt, x: Context, inLoop: bool, b: Builder, m: Machine, st: State, c: Config,
                                   fuel: nat)
    returns (n: nat)
    requires Arrives(c, b.cur, |b.blocks[b.cur]|, st, x.slots) && !Terminated(b)
    requires Prepared(x, b, inLoop) && StmtOk(s, InSlots(x.slots), inLoop)
    requires Extends(GenStmt(s, x, b).blocks, m.code)
    ensures var (o, st') := Emitted(s, x.steps, fuel, m.frame, st);
            EndsHere(o, st', x, GenStmt(s, x, b), Run(m, c, n), fuel, n)
    decreases fuel, s, 3
  {
    match s
    case Declare(d, e) => n := SimStore(d, e, x, b, m, st, c);
    case Assign(d, e) => n := SimStore(d, e, x, b, m, st, c);
    case Evaluate(e) =>
      n := SimExpr(e, x.slots, b, m, st.env, c);
      StaysOpen(e, x.slots, b);
      PreservesRel(c, Run(m, c, n), st.env, x.slots, b.regs);
    case Nested(body) => n := SimBlock(body, x, inLoop, b, m, st, c, fuel);
    case ErrorBlock(_) => n := 0;
    case If(_, _, _) => n := SimIf(s, x, inLoop, b, m, st, c, fuel);
    case While(_, _, _) => n := SimWhile(s, x, inLoop, b, m, st, c, fuel);
    case Break =>
      NextIsEmitted(b, Br(x.brk.value), m, c);
      RunOnce(m, c, 0);
      n := 1;
      MovedRel(c, Run(m, c, n), st.env, x.slots);
    case Continue =>
      NextIsEmitted(b, Br(x.cont.value), m, c);
      RunOnce(m, c, 0);
      n := 1;
      MovedRel(c, Run(m, c, n), st.env, x.slots);
    case Return(_) => n := SimReturn(s, x, b, m, st, c, fuel);
  }

  lemma MovedRel(c: Config, c': Config, env: Env, slots: Slots)
    requires Rel(c, env, slots) && c'.Running? && c'.regs == c.regs && c'.mem == c.mem
    ensures Rel(c', env, slots)
  {
    forall d | d in slots ensures Holds(c', env, slots, d) {
      assert Holds(c, env, slots, d);
    }
  }

  lemma RelLocals(c: Config, env: Env, slots: Slots)
    requires Rel(c, env, slots)
    ensures LocalsIn(c.mem, env, slots)
  {
    forall d | d in slots ensures slots[d] < |c.mem| && c.mem[slots[d]] == Get(env, d) {
      assert Holds(c, env, slots, d);
    }
  }

  lemma {:induction false} SimReturn(s: Stmt, x: Context, b: Builder, m: Machine, st: State, c: Config, fuel: nat)
    returns (n: nat)
    requires s.Return? && StmtOk(s, InSlots(x.slots), true)
    requires Arrives(c, b.cur, |b.blocks[b.cur]|, st, x.slots) && SlotsBelow(x.slots, b.regs)
    requires Extends(GenStmt(s, x, b).blocks, m.code)
    ensures var (o, st') := Emitted(s, x.steps, fuel, m.frame, st);
            EndsHere(o, st', x, GenStmt(s, x, b), Run(m, c, n), fuel, n)
  {
    match s.result
    case None =>
      NextIsEmitted(b, Ret(None), m, c);
      RunOnce(m, c, 0);
      n := 1;
      RelLocals(c, st.env, x.slots);
    case Some(e) =>
      var (o, b1) := GenExpr(e, x.slots, b);
      GrowExpr(e, x.slots, b);
      EmitGrows(b1, b1, Ret(Some(o)));
      FitsEarlier(b1, Emit(b1, Ret(Some(o))), m.code);
      n := SimExpr(e, x.slots, b, m, st.env, c);
      PreservesRel(c, Run(m, c, n), st.env, x.slots, b.regs);
      RelLocals(Run(m, c, n), st.env, x.slots);
      NextIsEmitted(b1, Ret(Some(o)), m, Run(m, c, n));
      RunOnce(m, c, n);
      n := n + 1;
  }

  lemma {:induction false} SimBlock(ss: seq<Stmt>, x: Context, inLoop: bool, b: Builder, m: Machine, st: State,
                                    c: Config, fuel: nat) returns (n: nat)
    requires Arrives(c, b.cur, |b.blocks[b.cur]|, st, x.slots) && !Terminated(b)
    requires Prepared(x, b, inLoop) && BlockOk(ss, InSlots(x.slots), inLoop)
    requires Extends(GenBlock(ss, x, b).blocks, m.code)
    ensures var (o, st') := EmittedBlock(ss, x.steps, fuel, m.frame, st);
            EndsHere(o, st', x, GenBlock(ss, x, b), Run(m, c, n), fuel, n)
    decreases fuel, ss, 1
  {
    hide GenSteps, GenStmt;
    if ss == [] {
      n := 0;
    } else if ss[0].IsTerminator() {
      var b1 := GenSteps(x.steps, x.slots, b);
      GrowSteps(x.steps, x.slots, b);
      GrowStmt(ss[0], x, b1);
      FitsEarlier(b1, GenStmt(ss[0], x, b1), m.code);
      n := SimSteps(x.steps, x, b, m, st, c);
      var k := SimStmt(ss[0], x, inLoop, b1, m, TakeSteps(x.steps, m.frame, st), Run(m, c, n), fuel);
      RunAdds(m, c, n, k);
      n := n + k;
    } else {
      n := SimSequence(ss, x, inLoop, b, m, st, c, fuel);
    }
  }

  lemma {:induction false} SimSequence(ss: seq<Stmt>, x: Context, inLoop: bool, b: Builder, m: Machine, st: State,
                                       c: Config, fuel: nat) returns (n: nat)
    requires ss != [] && !ss[0].IsTerminator()
    requires Arrives(c, b.cur, |b.blocks[b.cur]|, st, x.slots) && !Terminated(b)
    requires Prepared(x, b, inLoop) && BlockOk(ss, InSlots(x.slots), inLoop)
    requires Extends(GenBlock(ss, x, b).blocks, m.code)
    ensures var (o, st') := EmittedBlock(ss, x.steps, fuel, m.frame, st);
            EndsHere(o, st', x, GenBlock(ss, x, b), Run(m, c, n), fuel, n)
    decreases fuel, ss, 0
  {
    hide GenStmt, GenSteps, Emitted, TakeSteps, StmtOk, Rel, SameAt, PrefixAt;
    var b1 := GenStmt(ss[0], x, b);
    GrowStmt(ss[0], x, b);
    GrowSteps(x.steps, x.slots, b1);
    GrowBlock(ss[1..], x, b1);
    FitsEarlier(b1, GenBlock(ss, x, b), m.code);
    n := SimStmt(ss[0], x, inLoop, b, m, st, c, fuel);
    var (o, st1) := Emitted(ss[0], x.steps, fuel, m.frame, st);
    if o == Normal {
      var k: nat;
      if |ss| == 1 {
        k := SimSteps(x.steps, x, b1, m, st1, Run(m, c, n));
      } else {
        k := SimBlock(ss[1..], x, inLoop, b1, m, st1, Run(m, c, n), fuel);
      }
      RunAdds(m, c, n, k);
      n := n + k;
    }
  }

  // ----- branches -----

  /** A block of statements entered at the start of its own basic block; completing means
      arriving at the start of `next`. */
  lemma {:induction false} SimArm(ss: seq<Stmt>, x: Context, inLoop: bool, blk: nat, next: nat, b: Builder, m: Machine,
                                  st: State, c: Config, fuel: nat) returns (n: nat)
    requires blk < |b.blocks| && b.blocks[blk] == []
    requires Arrives(c, blk, 0, st, x.slots)
    requires Prepared(x, b, inLoop) && BlockOk(ss, InSlots(x.slots), inLoop)
    requires Extends(GenArm(ss, x, blk, next, b).blocks, m.code)
    ensures var (o, st') := EmittedBlock(ss, x.steps, fuel, m.frame, st);
            Ends(o, st', x, next, 0, Run(m, c, n), fuel, n)
    decreases fuel, ss, 2
  {
    var b1 := GenBlock(ss, x, At(b, blk));
    EmitGrows(b1, b1, Br(next));
    FitsEarlier(b1, BrIfOpen(b1, next), m.code);
    n := SimBlock(ss, x, inLoop, At(b, blk), m, st, c, fuel);
    var (o, st') := EmittedBlock(ss, x.steps, fuel, m.frame, st);
    if o == Normal {
      NextIsEmitted(b1, Br(next), m, Run(m, c, n));
      RunOnce(m, c, n);
      MovedRel(Run(m, c, n), Run(m, c, n + 1), st'.env, x.slots);
      n := n + 1;
    }
  }

  /** A condition, its comparison with false, and the branch. */
  lemma {:induction false} SimCondition(e: Expr, slots: Slots, b: Builder, i: Instr, j: Instr, b2: Builder, m: Machine,
                                        st: State, c: Config) returns (n: nat)
    requires Arrives(c, b.cur, |b.blocks[b.cur]|, st, slots) && SlotsBelow(slots, b.regs) && ExprOk(e, InSlots(slots))
    requires var (o, b1) := GenExpr(e, slots, b);
             && i == Compute(b1.regs, IcmpNe, 1, o, Const(0))
             && j.CondBr? && j.cond == Reg(b1.regs)
             && Grows(EmitValue(b1, i), b2) && b2.cur == b1.cur
             && b2.blocks[b2.cur] == EmitValue(b1, i).blocks[b1.cur]
    requires Extends(Emit(b2, j).blocks, m.code)
    ensures var c' := Run(m, c, n); var (v, t) := Eval(e, m.frame, st.env, st.trace);
            Arrives(c', if Truth(v) then j.ifTrue else j.ifFalse, 0, st.(trace := t), slots) && n > 0
  {
    hide Run, Eval, GenExpr;
    var (o, b1) := GenExpr(e, slots, b);
    ConditionFits(b1, i, j, b2, m.code);
    GrowExpr(e, slots, b);
    n := SimExpr(e, slots, b, m, st.env, c);
    PreservesRel(c, Run(m, c, n), st.env, slots, b.regs);
    SimTestAndJump(o, Eval(e, m.frame, st.env, st.trace).0, slots, b1, i, j, b2, m, st.env, Run(m, c, n));
    RunAdds(m, c, n, 2);
    n := n + 2;
  }

  lemma ConditionFits(b1: Builder, i: Instr, j: Instr, b2: Builder, code: Code)
    requires Grows(EmitValue(b1, i), b2) && Extends(Emit(b2, j).blocks, code)
    ensures Extends(b1.blocks, code) && Extends(EmitValue(b1, i).blocks, code)
  {
    EmitGrows(b2, b2, j);
    FitsEarlier(b2, Emit(b2, j), code);
    FitsEarlier(EmitValue(b1, i), b2, code);
    EmitGrows(b1, b1, i);
    FitsEarlier(b1, EmitValue(b1, i), code);
  }

  lemma SimTestAndJump(o: Operand, v: int, slots: Slots, b: Builder, i: Instr, j: Instr, b2: Builder, m: Machine,
                       env: Env, c: Config)
    requires AtEnd(c, b) && Rel(c, env, slots) && SlotsBelow(slots, b.regs) && Delivers(o, v, c, m.frame, b.regs)
    requires i == Compute(b.regs, IcmpNe, 1, o, Const(0)) && j.CondBr? && j.cond == Reg(b.regs)
    requires b2.cur == b.cur && b2.blocks[b2.cur] == EmitValue(b, i).blocks[b.cur]
    requires Extends(EmitValue(b, i).blocks, m.code) && Extends(Emit(b2, j).blocks, m.code)
    ensures var c' := Run(m, c, 2);
            && c'.Running? && c'.blk == (if Truth(v) then j.ifTrue else j.ifFalse) && c'.pc == 0
            && c'.trace == c.trace && Rel(c', env, slots)
  {
    NextIsEmitted(b, i, m, c);
    RunOnce(m, c, 0);
    var c1 := Run(m, c, 1);
    PreservesRel(c, c1, env, slots, b.regs);
    NextIsEmitted(b2, j, m, c1);
    RunOnce(m, c, 1);
    TestOfBoolean(v, true, m.frame.world.undef);
    MovedRel(c1, Run(m, c, 2), env, slots);
  }

  // ----- if -----

  lemma {:induction false} SimIfStart(e: Expr, slots: Slots, b: Builder, m: Machine, st: State, c: Config)
    returns (n: nat)
    requires Arrives(c, b.cur, |b.blocks[b.cur]|, st, slots) && SlotsBelow(slots, b.regs) && ExprOk(e, InSlots(slots))
    requires Extends(IfStart(e, slots, b).blocks, m.code)
    ensures var c' := Run(m, c, n); var (v, t) := Eval(e, m.frame, st.env, st.trace);
            var done := |IfStart(e, slots, b).blocks| - 1;
            Arrives(c', if Truth(v) then done - 2 else done - 1, 0, st.(trace := t), slots)
  {
    hide Run, Eval;
    var (o, b1) := GenExpr(e, slots, b);
    var i := Compute(b1.regs, IcmpNe, 1, o, Const(0));
    var b2 := EmitValue(b1, i);
    var b3 := Create(Create(Create(b2, true), false), false);
    GrowThreeBlocks(b2);
    n := SimCondition(e, slots, b, i, CondBr(Reg(b1.regs), |b2.blocks|, |b2.blocks| + 1), b3, m, st, c);
  }

  lemma {:induction false} SimIf(s: Stmt, x: Context, inLoop: bool, b: Builder, m: Machine, st: State, c: Config,
                                 fuel: nat)
    returns (n: nat)
    requires s.If?
    requires Arrives(c, b.cur, |b.blocks[b.cur]|, st, x.slots) && !Terminated(b)
    requires Prepared(x, b, inLoop) && StmtOk(s, InSlots(x.slots), inLoop)
    requires Extends(GenStmt(s, x, b).blocks, m.code)
    ensures var (o, st') := Emitted(s, x.steps, fuel, m.frame, st);
            EndsHere(o, st', x, GenStmt(s, x, b), Run(m, c, n), fuel, n)
    decreases fuel, s, 1
  {
    hide Run, Eval, IfStart, GenArm, InSlots, ExprOk;
    var b1 := IfStart(s.cond, x.slots, b);
    GrowIfStart(s.cond, x.slots, b);
    BranchStates(s, x, b1, m.code);
    n := SimIfStart(s.cond, x.slots, b, m, st, c);
    var (v, t) := Eval(s.cond, m.frame, st.env, st.trace);
    var k := SimBranches(s, x, inLoop, Truth(v), b1, m, st.(trace := t), Run(m, c, n), fuel);
    RunAdds(m, c, n, k);
    n := n + k;
  }

  /** The arms write to their own blocks and leave the done block empty. */
  lemma {:induction false} BranchStates(s: Stmt, x: Context, b: Builder, code: Code)
    requires s.If? && |b.blocks| >= 3 && Extends(Branches(s, x, b).blocks, code)
    requires var done := |b.blocks| - 1;
             b.cur < done - 2 && b.blocks[done - 2] == b.blocks[done - 1] == b.blocks[done] == []
    ensures var done := |b.blocks| - 1;
            var a1 := GenArm(s.thn, x, done - 2, done, b);
            var b2 := Insert(a1, done - 1);
            && Extends(b.blocks, code) && Extends(a1.blocks, code)
            && Extends(GenArm(s.els, x, done - 1, done, b2).blocks, code)
            && b.regs <= a1.regs && b2.blocks[done - 1] == []
            && Branches(s, x, b).cur == done && Branches(s, x, b).blocks[done] == []
  {
    hide GenArm, Extends, SameAt, PrefixAt;
    var done := |b.blocks| - 1;
    var a1 := GenArm(s.thn, x, done - 2, done, b);
    GrowArm(s.thn, x, done - 2, done, b);
    LaterBlocksKept(At(b, done - 2), a1, done - 1);
    ElseState(s.els, x, done, a1, code);
    FitsEarlier(At(b, done - 2), a1, code);
  }

  lemma {:induction false} ElseState(ss: seq<Stmt>, x: Context, done: nat, a1: Builder, code: Code)
    requires 0 < done < |a1.blocks| && a1.blocks[done] == []
    requires Extends(GenArm(ss, x, done - 1, done, Insert(a1, done - 1)).blocks, code)
    ensures Extends(a1.blocks, code) && GenArm(ss, x, done - 1, done, Insert(a1, done - 1)).blocks[done] == []
  {
    var b2 := Insert(a1, done - 1);
    var a2 := GenArm(ss, x, done - 1, done, b2);
    GrowArm(ss, x, done - 1, done, b2);
    LaterBlocksKept(At(b2, done - 1), a2, done);
    FitsEarlier(At(b2, done - 1), a2, code);
  }

  lemma {:induction false} SimBranches(s: Stmt, x: Context, inLoop: bool, truth: bool, b1: Builder, m: Machine,
                                       st: State, c: Config, fuel: nat) returns (n: nat)
    requires s.If? && |b1.blocks| >= 3
    requires Prepared(x, b1, inLoop) && StmtOk(s, InSlots(x.slots), inLoop)
    requires Arrives(c, if truth then |b1.blocks| - 3 else |b1.blocks| - 2, 0, st, x.slots)
    requires var done := |b1.blocks| - 1;
             var a1 := GenArm(s.thn, x, done - 2, done, b1);
             var b2 := Insert(a1, done - 1);
             && b1.blocks[done - 2] == [] && b1.regs <= a1.regs && b2.blocks[done - 1] == []
             && Extends(a1.blocks, m.code) && Extends(GenArm(s.els, x, done - 1, done, b2).blocks, m.code)
    ensures var (o, st') := EmittedBlock(if truth then s.thn else s.els, x.steps, fuel, m.frame, st);
            Ends(o, st', x, |b1.blocks| - 1, 0, Run(m, c, n), fuel, n)
    decreases fuel, s, 0
  {
    var done := |b1.blocks| - 1;
    if truth {
      n := SimArm(s.thn, x, inLoop, done - 2, done, b1, m, st, c, fuel);
    } else {
      n := SimArm(s.els, x, inLoop, done - 1, done, Insert(GenArm(s.thn, x, done - 2, done, b1), done - 1), m, st, c,
                  fuel);
    }
  }

  // ----- while -----

  lemma {:induction false} SimWhile(s: Stmt, x: Context, inLoop: bool, b: Builder, m: Machine, st: State, c: Config,
                                    fuel: nat) returns (n: nat)
    requires s.While?
    requires Arrives(c, b.cur, |b.blocks[b.cur]|, st, x.slots) && !Terminated(b)
    requires Prepared(x, b, inLoop) && StmtOk(s, InSlots(x.slots), inLoop)
    requires Extends(GenStmt(s, x, b).blocks, m.code)
    ensures var (o, st') := Emitted(s, x.steps, fuel, m.frame, st);
            EndsHere(o, st', x, GenStmt(s, x, b), Run(m, c, n), fuel, n)
    decreases fuel, s, 2
  {
    hide Loop, WhileEntry;
    var e := StartLoop(s, x, b, m, st, c);
    n := SimLoop(s, x, |b.blocks|, e, m, st, Run(m, c, 1), fuel);
    RunAdds(m, c, 1, n);
    n := 1 + n;
  }

  /** From before the loop to the start of its head. */
  lemma {:induction false} StartLoop(s: Stmt, x: Context, b: Builder, m: Machine, st: State, c: Config)
    returns (e: Builder)
    requires s.While? && Extends(GenStmt(s, x, b).blocks, m.code)
    requires Arrives(c, b.cur, |b.blocks[b.cur]|, st, x.slots)
    ensures var head := |b.blocks|;
            && e.cur == head && head + 2 < |e.blocks| && e.regs == b.regs
            && e.blocks[head] == e.blocks[head + 1] == e.blocks[head + 2] == []
            && GenStmt(s, x, b) == Loop(s, x, head, e)
            && Loop(s, x, head, e).cur == head + 2 && Loop(s, x, head, e).blocks[head + 2] == []
    ensures Arrives(Run(m, c, 1), |b.blocks|, 0, st, x.slots)
  {
    hide Run, Loop, LoopTest;
    e := WhileEntry(b);
    GrowWhileEntry(b);
    LoopStates(s, x, |b.blocks|, e, m.code);
    EnterLoop(b, m, c);
    MovedRel(c, Run(m, c, 1), st.env, x.slots);
  }

  /** What a loop's code is built from fits, and its done block is still empty. */
  lemma {:induction false} LoopStates(s: Stmt, x: Context, head: nat, e: Builder, code: Code)
    requires s.While? && e.cur == head && head + 2 < |e.blocks| && e.blocks[head + 1] == e.blocks[head + 2] == []
    requires Extends(Loop(s, x, head, e).blocks, code)
    ensures var h := LoopTest(s.cond, x.slots, head, e);
            var a := GenArm(s.body, BodyContext(x, s.prologue, head), head + 1, head, h);
            && e.regs <= h.regs && h.blocks[head + 1] == [] && Extends(h.blocks, code) && Extends(a.blocks, code)
            && Loop(s, x, head, e).cur == head + 2 && Loop(s, x, head, e).blocks[head + 2] == []
    ensures Extends(e.blocks, code)
  {
    var h := LoopTest(s.cond, x.slots, head, e);
    GrowLoopTest(s.cond, x.slots, head, e);
    LaterBlocksKept(e, h, head + 1);
    LoopBodyFits(s.body, BodyContext(x, s.prologue, head), head, h, code);
    FitsEarlier(e, h, code);
  }

  lemma {:induction false} LoopBodyFits(ss: seq<Stmt>, x: Context, head: nat, h: Builder, code: Code)
    requires head + 2 < |h.blocks| && h.blocks[head + 2] == []
    requires Extends(GenArm(ss, x, head + 1, head, h).blocks, code)
    ensures Extends(h.blocks, code) && GenArm(ss, x, head + 1, head, h).blocks[head + 2] == []
  {
    GrowArm(ss, x, head + 1, head, h);
    FitsEarlier(At(h, head + 1), GenArm(ss, x, head + 1, head, h), code);
    LaterBlocksKept(At(h, head + 1), GenArm(ss, x, head + 1, head, h), head + 2);
  }

  lemma {:induction false} SimLoop(s: Stmt, x: Context, head: nat, e: Builder, m: Machine, st: State, c: Config,
                                   fuel: nat)
    returns (n: nat)
    requires s.While? && e.cur == head && head + 2 < |e.blocks|
    requires e.blocks[head] == e.blocks[head + 1] == e.blocks[head + 2] == []
    requires Extends(Loop(s, x, head, e).blocks, m.code)
    requires Prepared(x, e, false) && StmtOk(s, InSlots(x.slots), true) && Arrives(c, head, 0, st, x.slots)
    ensures var (o, st') := Emitted(s, x.steps, fuel, m.frame, st);
            Ends(o, st', x, head + 2, 0, Run(m, c, n), fuel, n)
    decreases fuel, s, 1
  {
    LoopStates(s, x, head, e, m.code);
    n := SimRounds(s, x, BodyContext(x, s.prologue, head), head, e, LoopTest(s.cond, x.slots, head, e), m, st, c, fuel);
  }

  lemma EnterLoop(b: Builder, m: Machine, c: Config)
    requires AtEnd(c, b) && Extends(WhileEntry(b).blocks, m.code)
    ensures Run(m, c, 1) == c.(blk := |b.blocks|, pc := 0)
  {
    var b1 := Create(Create(Create(b, true), true), true);
    assert b1.blocks[b.cur] == b.blocks[b.cur];
    NextIsEmitted(b1, Br(|b.blocks|), m, c);
    RunOnce(m, c, 0);
  }

  /** The rounds of a loop, from the start of its head. */
  lemma {:induction false} SimRounds(s: Stmt, x: Context, x1: Context, head: nat, e: Builder, h: Builder, m: Machine,
                                     st: State, c: Config, fuel: nat) returns (n: nat)
    requires s.While? && head + 2 < |e.blocks| && e.cur == head && e.blocks[head] == []
    requires x1 == BodyContext(x, s.prologue, head)
    requires h == LoopTest(s.cond, x.slots, head, e) && head + 1 < |h.blocks| && h.blocks[head + 1] == [] &&
             e.regs <= h.regs
    requires Extends(h.blocks, m.code) && Extends(GenArm(s.body, x1, head + 1, head, h).blocks, m.code)
    requires Prepared(x, e, false) && StmtOk(s, InSlots(x.slots), true)
    requires Arrives(c, head, 0, st, x.slots)
    ensures var (o, st') := Emitted(s, x.steps, fuel, m.frame, st);
            Ends(o, st', x, head + 2, 0, Run(m, c, n), fuel, n)
    decreases fuel, s, 0
  {
    hide Eval, GenArm, LoopTest;
    if fuel == 0 {
      n := 0;
    } else {
      n := SimLoopTest(s.cond, x.slots, head, e, m, st, c);
      var (v, t) := Eval(s.cond, m.frame, st.env, st.trace);
      var st1 := st.(trace := t);
      if Truth(v) {
        var k := SimArm(s.body, x1, true, head + 1, head, h, m, st1, Run(m, c, n), fuel - 1);
        RunAdds(m, c, n, k);
        n := n + k;
        var (o, st2) := EmittedBlock(s.body, x1.steps, fuel - 1, m.frame, st1);
        if o == Normal || o == Continued {
          var l := SimRounds(s, x, x1, head, e, h, m, st2, Run(m, c, n), fuel - 1);
          RunAdds(m, c, n, l);
          n := n + l;
        }
      }
    }
  }

  lemma {:induction false} SimLoopTest(c: Expr, slots: Slots, head: nat, e: Builder, m: Machine, st: State, cf: Config)
    returns (n: nat)
    requires e.cur == head && e.blocks[head] == [] && Arrives(cf, head, 0, st, slots)
    requires SlotsBelow(slots, e.regs) && ExprOk(c, InSlots(slots))
    requires Extends(LoopTest(c, slots, head, e).blocks, m.code)
    ensures var (v, t) := Eval(c, m.frame, st.env, st.trace);
            Arrives(Run(m, cf, n), if Truth(v) then head + 1 else head + 2, 0, st.(trace := t), slots) && n > 0
  {
    hide Run, Eval, GenExpr, ExprOk;
    var (o, b2) := GenExpr(c, slots, e);
    var i := Compute(b2.regs, IcmpNe, 1, o, Const(0));
    n := SimCondition(c, slots, e, i, CondBr(Reg(b2.regs), head + 1, head + 2), EmitValue(b2, i), m, st, cf);
  }
}
