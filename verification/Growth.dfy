// Code generation only appends, and only to the block at the insert point and to blocks
// it creates.
module Growth {
  import opened Words
  import opened Tree
  import opened Ir
  import opened Lowering

  ghost predicate PrefixAt(c: Code, c': Code, i: int)
    requires 0 <= i < |c| <= |c'|
  {
    c[i] <= c'[i]
  }

  /** Every block of c is a prefix of the block of the same number in c'. */
  ghost predicate Extends(c: Code, c': Code)
  {
    |c| <= |c'| && forall i :: 0 <= i < |c| ==> PrefixAt(c, c', i)
  }

  ghost predicate SameAt(c: Code, c': Code, i: int)
    requires 0 <= i < |c| <= |c'|
  {
    c[i] == c'[i]
  }

  /** From b to b', of the blocks of b only the one at the insert point has grown. */
  ghost predicate Keeps(b: Builder, b': Builder)
  {
    && |b.blocks| <= |b'.blocks|
    && b.regs <= b'.regs
    && b.layout <= b'.layout
    && PrefixAt(b.blocks, b'.blocks, b.cur)
    && forall i :: 0 <= i < |b.blocks| && i != b.cur ==> SameAt(b.blocks, b'.blocks, i)
  }

  /** In addition the insert point is where it was or in a new block. */
  ghost predicate Grows(b: Builder, b': Builder)
  {
    Keeps(b, b') && (b'.cur == b.cur || b'.cur >= |b.blocks|)
  }

  lemma ExtendsTrans(a: Code, b: Code, c: Code)
    requires Extends(a, b) && Extends(b, c)
    ensures Extends(a, c)
  {
    forall i | 0 <= i < |a| ensures PrefixAt(a, c, i) {
      assert PrefixAt(a, b, i) && PrefixAt(b, c, i);
    }
  }

  lemma KeepsExtends(b: Builder, b': Builder)
    requires Keeps(b, b')
    ensures Extends(b.blocks, b'.blocks)
  {
    forall i | 0 <= i < |b.blocks| ensures PrefixAt(b.blocks, b'.blocks, i) {
      assert i != b.cur ==> SameAt(b.blocks, b'.blocks, i);
    }
  }

  /** Whatever contains the later code contains the earlier. */
  lemma FitsEarlier(b: Builder, b': Builder, code: Code)
    requires Keeps(b, b') && Extends(b'.blocks, code)
    ensures Extends(b.blocks, code)
  {
    KeepsExtends(b, b');
    ExtendsTrans(b.blocks, b'.blocks, code);
  }

  lemma KeepsTrans(a: Builder, b: Builder, c: Builder)
    requires Grows(a, b) && Keeps(b, c)
    ensures Keeps(a, c)
  {
    assert PrefixAt(a.blocks, c.blocks, a.cur) by {
      assert a.cur != b.cur ==> SameAt(b.blocks, c.blocks, a.cur);
    }
    forall i | 0 <= i < |a.blocks| && i != a.cur ensures SameAt(a.blocks, c.blocks, i) {
      assert SameAt(a.blocks, b.blocks, i) && SameAt(b.blocks, c.blocks, i);
    }
  }

  lemma GrowsTrans(a: Builder, b: Builder, c: Builder)
    requires Grows(a, b) && Grows(b, c)
    ensures Grows(a, c)
  {
    KeepsTrans(a, b, c);
  }

  /** Moving the insert point to a block that is new relative to a. */
  lemma GrowsAt(a: Builder, b: Builder, blk: nat)
    requires Keeps(a, b) && |a.blocks| <= blk < |b.blocks|
    ensures Grows(a, At(b, blk))
  {}

  lemma EmitGrows(a: Builder, b: Builder, i: Instr)
    requires Grows(a, b)
    ensures Grows(a, Emit(b, i)) && Grows(a, EmitValue(b, i))
  {
    assert Grows(b, Emit(b, i));
    GrowsTrans(a, b, Emit(b, i));
  }

  // ----- expressions -----

  lemma {:induction false} GrowExpr(e: Expr, slots: Slots, b: Builder)
    ensures Grows(b, GenExpr(e, slots, b).1)
    decreases e, 2
  {
    match e
    case Binary(op, ty, l, r) =>
      var (x, b1) := GenExpr(l, slots, b);
      var (y, b2) := GenExpr(r, slots, b1);
      GrowExpr(l, slots, b);
      GrowExpr(r, slots, b1);
      GrowsTrans(b, b1, b2);
      EmitGrows(b, b2, Compute(b2.regs, Select(op, ty), ty.Width(), x, y));
    case Logical(conj, _, _) =>
      GrowLogicalStart(conj, b);
      GrowDiamond(e, b.regs, |b.blocks|, slots, b, LogicalStart(conj, b));
    case Call(callee, es) =>
      var (os, b1) := GenAll(es, slots, b);
      GrowAll(es, slots, b);
      EmitGrows(b, b1, Invoke(b1.regs, callee, os));
    case Cast(from, to, x) =>
      var (o, b1) := GenExpr(x, slots, b);
      GrowExpr(x, slots, b);
      EmitGrows(b, b1, IntCast(b1.regs, from.Width(), to.Width(), o));
    case Local(d) => EmitGrows(b, b, Load(b.regs, Reg(SlotOf(slots, d))));
    case _ =>
  }

  lemma GrowLogicalStart(conj: bool, b: Builder)
    ensures var s := LogicalStart(conj, b);
            && Grows(b, s) && s.cur == b.cur
            && s.blocks[|b.blocks|] == s.blocks[|b.blocks| + 1] == s.blocks[|b.blocks| + 2] == []
  {}

  lemma {:induction false} GrowTested(conj: bool, e: Expr, target: nat, first: nat, slots: Slots, b: Builder)
    requires target < |b.blocks|
    ensures var b' := GenTested(conj, e, target, first, slots, b); Keeps(b, b') && b'.cur == target
    decreases e, 3
  {
    var (x, b1) := GenExpr(e, slots, b);
    GrowExpr(e, slots, b);
    var i := Compute(b1.regs, IcmpEq, 1, x, Const(BoolWord(conj)));
    EmitGrows(b, b1, i);
    EmitGrows(b, EmitValue(b1, i), CondBr(Reg(b1.regs), target, first + 2));
  }

  lemma {:induction false} GrowDiamond(e: Expr, temp: nat, first: nat, slots: Slots, a: Builder, b: Builder)
    requires e.Logical? && Grows(a, b) && |a.blocks| <= first && first + 2 < |b.blocks|
    ensures Grows(a, Diamond(e, temp, first, slots, b).1)
    decreases e, 0
  {
    var b1 := GenTested(e.conj, e.lhs, first, first, slots, b);
    var b2 := GenTested(e.conj, e.rhs, first + 1, first, slots, b1);
    GrowTested(e.conj, e.lhs, first, first, slots, b);
    KeepsTrans(a, b, b1);
    GrowTested(e.conj, e.rhs, first + 1, first, slots, b1);
    KeepsTrans(a, b1, b2);
    GrowLogicalResult(e.conj, Reg(temp), first, a, b2);
  }

  lemma GrowLogicalResult(conj: bool, temp: Operand, first: nat, a: Builder, b: Builder)
    requires Grows(a, b) && |a.blocks| <= first && first + 2 < |b.blocks|
    ensures Grows(a, LogicalResult(conj, temp, first, b).1)
  {
    var b1 := Emit(b, Store(Const(BoolWord(conj)), temp));
    EmitGrows(a, b, Store(Const(BoolWord(conj)), temp));
    EmitGrows(a, b1, Br(first + 2));
    var b2 := At(Emit(b1, Br(first + 2)), first + 2);
    EmitGrows(a, b2, Load(b2.regs, temp));
  }

  lemma {:induction false} GrowAll(es: seq<Expr>, slots: Slots, b: Builder)
    ensures Grows(b, GenAll(es, slots, b).1)
    decreases es
  {
    if es != [] {
      var b1 := GenExpr(es[0], slots, b).1;
      GrowExpr(es[0], slots, b);
      GrowAll(es[1..], slots, b1);
      GrowsTrans(b, b1, GenAll(es[1..], slots, b1).1);
    }
  }

  // ----- statements -----

  lemma {:induction false} GrowStore(d: DeclId, e: Expr, slots: Slots, b: Builder)
    ensures Grows(b, GenStore(d, e, slots, b))
  {
    var (o, b1) := GenExpr(e, slots, b);
    GrowExpr(e, slots, b);
    EmitGrows(b, b1, Store(o, Reg(SlotOf(slots, d))));
  }

  lemma {:induction false} GrowSteps(steps: seq<Step>, slots: Slots, b: Builder)
    ensures Grows(b, GenSteps(steps, slots, b))
    decreases steps
  {
    if steps != [] {
      var b1 := GenStep(steps[0], slots, b);
      if steps[0].Step? {
        GrowStore(steps[0].decl, steps[0].value, slots, b);
      }
      GrowSteps(steps[1..], slots, b1);
      GrowsTrans(b, b1, GenSteps(steps[1..], slots, b1));
    }
  }

  lemma GrowThreeBlocks(b: Builder)
    ensures var b1 := Create(Create(Create(b, true), false), false); var k := |b.blocks|;
            && Grows(b, b1) && b1.cur == b.cur && |b1.blocks| == k + 3 && b1.blocks[b.cur] == b.blocks[b.cur]
            && b1.blocks[k] == b1.blocks[k + 1] == b1.blocks[k + 2] == []
  {}

  lemma {:induction false} GrowIfStart(c: Expr, slots: Slots, b: Builder)
    ensures var b1 := IfStart(c, slots, b); var k := |b1.blocks|;
            Grows(b, b1) && b1.cur < k - 3 && b1.blocks[k - 3] == b1.blocks[k - 2] == b1.blocks[k - 1] == []
  {
    hide PrefixAt, SameAt, GenExpr, EmitValue, Grows, Keeps;
    var (o, b1) := GenExpr(c, slots, b);
    var i := Compute(b1.regs, IcmpNe, 1, o, Const(0));
    var b2 := EmitValue(b1, i);
    GrowExpr(c, slots, b);
    EmitGrows(b, b1, i);
    GrowThreeBlocks(b2);
    IfBranch(b, b2, Create(Create(Create(b2, true), false), false), CondBr(Reg(b1.regs), |b2.blocks|, |b2.blocks| + 1));
  }

  lemma IfBranch(b: Builder, b2: Builder, b3: Builder, j: Instr)
    requires Grows(b, b2) && Grows(b2, b3) && b3.cur == b2.cur
    ensures Grows(b, Emit(b3, j)) &&
            forall i :: |b2.blocks| <= i < |b3.blocks| ==> Emit(b3, j).blocks[i] == b3.blocks[i]
  {
    GrowsTrans(b, b2, b3);
    EmitGrows(b, b3, j);
  }

  lemma GrowWhileEntry(b: Builder)
    ensures var e := WhileEntry(b);
            && Grows(b, e)
            && e.blocks[|b.blocks|] == e.blocks[|b.blocks| + 1] == e.blocks[|b.blocks| + 2] == []
  {}

  lemma {:induction false} GrowLoopTest(c: Expr, slots: Slots, head: nat, b: Builder)
    ensures Grows(b, LoopTest(c, slots, head, b))
  {
    var (o, b1) := GenExpr(c, slots, b);
    var i := Compute(b1.regs, IcmpNe, 1, o, Const(0));
    GrowExpr(c, slots, b);
    EmitGrows(b, b1, i);
    EmitGrows(b, EmitValue(b1, i), CondBr(Reg(b1.regs), head + 1, head + 2));
  }

  lemma {:induction false} GrowStmt(s: Stmt, x: Context, b: Builder)
    ensures Grows(b, GenStmt(s, x, b))
    decreases s, 2
  {
    hide BodyContext, Branches, EmitValue, GenExpr, GenSteps, GenStore;
    match s
    case Declare(d, e) => GrowStore(d, e, x.slots, b);
    case Assign(d, e) => GrowStore(d, e, x.slots, b);
    case Evaluate(e) => GrowExpr(e, x.slots, b);
    case Nested(body) => GrowBlock(body, x, b);
    case If(c, _, _) =>
      GrowIfStart(c, x.slots, b);
      GrowBranches(s, x, b, IfStart(c, x.slots, b));
    case While(_, _, _) =>
      GrowWhileEntry(b);
      GrowLoop(s, x, |b.blocks|, b, WhileEntry(b));
    case Return(Some(e)) =>
      var (o, b1) := GenExpr(e, x.slots, b);
      GrowExpr(e, x.slots, b);
      EmitGrows(b, b1, Ret(Some(o)));
    case Return(None) => EmitGrows(b, b, Ret(None));
    case Break => if x.brk.Some? { EmitGrows(b, b, Br(x.brk.value)); }
    case Continue => if x.cont.Some? { EmitGrows(b, b, Br(x.cont.value)); }
    case _ =>
  }

  lemma {:induction false} GrowArm(ss: seq<Stmt>, x: Context, blk: nat, next: nat, b: Builder)
    requires blk < |b.blocks|
    ensures Grows(At(b, blk), GenArm(ss, x, blk, next, b))
    decreases ss, 1
  {
    GrowBlock(ss, x, At(b, blk));
    EmitGrows(At(b, blk), GenBlock(ss, x, At(b, blk)), Br(next));
  }

  lemma {:induction false} GrowBranches(s: Stmt, x: Context, a: Builder, b: Builder)
    requires s.If? && Grows(a, b) && |a.blocks| <= |b.blocks| - 3
    ensures Grows(a, Branches(s, x, b))
    decreases s, 0
  {
    var done := |b.blocks| - 1;
    var b1 := GenArm(s.thn, x, done - 2, done, b);
    GrowsAt(a, b, done - 2);
    GrowArm(s.thn, x, done - 2, done, b);
    GrowsTrans(a, At(b, done - 2), b1);
    var b2 := Insert(b1, done - 1);
    assert Grows(a, At(b2, done - 1));
    GrowArm(s.els, x, done - 1, done, b2);
    GrowsTrans(a, At(b2, done - 1), GenArm(s.els, x, done - 1, done, b2));
  }

  lemma {:induction false} GrowLoop(s: Stmt, x: Context, head: nat, a: Builder, b: Builder)
    requires s.While? && Grows(a, b) && |a.blocks| <= head && head + 2 < |b.blocks|
    ensures Grows(a, Loop(s, x, head, b))
    decreases s, 0
  {
    var h := LoopTest(s.cond, x.slots, head, b);
    GrowLoopTest(s.cond, x.slots, head, b);
    GrowsTrans(a, b, h);
    GrowLoopBody(s.body, BodyContext(x, s.prologue, head), head, a, h);
  }

  lemma {:induction false} GrowLoopBody(body: seq<Stmt>, x: Context, head: nat, a: Builder, h: Builder)
    requires Grows(a, h) && |a.blocks| <= head && head + 2 < |h.blocks|
    ensures Grows(a, At(GenArm(body, x, head + 1, head, h), head + 2))
    decreases body, 2
  {
    GrowsAt(a, h, head + 1);
    GrowArm(body, x, head + 1, head, h);
    GrowsTrans(a, At(h, head + 1), GenArm(body, x, head + 1, head, h));
  }

  lemma {:induction false} GrowBlock(ss: seq<Stmt>, x: Context, b: Builder)
    ensures Grows(b, GenBlock(ss, x, b))
    decreases ss, 0
  {
    if ss == [] {
    } else if ss[0].IsTerminator() {
      var b1 := GenSteps(x.steps, x.slots, b);
      GrowSteps(x.steps, x.slots, b);
      GrowStmt(ss[0], x, b1);
      GrowsTrans(b, b1, GenStmt(ss[0], x, b1));
    } else {
      var b1 := GenStmt(ss[0], x, b);
      GrowStmt(ss[0], x, b);
      if |ss| == 1 {
        GrowSteps(x.steps, x.slots, b1);
        GrowsTrans(b, b1, GenSteps(x.steps, x.slots, b1));
      } else {
        GrowBlock(ss[1..], x, b1);
        GrowsTrans(b, b1, GenBlock(ss[1..], x, b1));
      }
    }
  }
}
