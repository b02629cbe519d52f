// Every block that is created is inserted into the function, once, and every branch goes
// to such a block.
module BlockLayout {
  import opened Words
  import opened Tree
  import opened Ir
  import opened Lowering

  predicate AimsBelow(i: Instr, n: nat)
  {
    match i
    case Br(t) => t < n
    case CondBr(_, t, e) => t < n && e < n
    case _ => true
  }

  ghost predicate BlockAimed(ii: seq<Instr>, n: nat)
  {
    forall k :: 0 <= k < |ii| ==> AimsBelow(ii[k], n)
  }

  /** All branches go to blocks that exist. */
  ghost predicate Aimed(b: Builder)
  {
    forall i :: 0 <= i < |b.blocks| ==> BlockAimed(b.blocks[i], |b.blocks|)
  }

  ghost predicate Inserted(b: Builder, i: int) { i in b.layout }

  /** From b to b', as many blocks were inserted as created, and all the created ones. */
  ghost predicate Laid(b: Builder, b': Builder)
  {
    && b.layout <= b'.layout
    && |b'.layout| - |b.layout| == |b'.blocks| - |b.blocks| >= 0
    && forall i :: |b.blocks| <= i < |b'.blocks| ==> Inserted(b', i)
  }

  /** The same, and branches keep going to existing blocks. */
  ghost predicate Sound(b: Builder, b': Builder)
  {
    Laid(b, b') && (Aimed(b) ==> Aimed(b'))
  }

  lemma LaidTrans(a: Builder, b: Builder, c: Builder)
    requires Laid(a, b) && Laid(b, c)
    ensures Laid(a, c)
  {
    forall i | |a.blocks| <= i < |c.blocks| ensures Inserted(c, i) {
      assert i < |b.blocks| ==> Inserted(b, i);
      assert i >= |b.blocks| ==> Inserted(c, i);
    }
  }

  lemma SoundTrans(a: Builder, b: Builder, c: Builder)
    requires Sound(a, b) && Sound(b, c)
    ensures Sound(a, c)
  {
    LaidTrans(a, b, c);
  }

  lemma EmitAimed(b: Builder, i: Instr)
    requires Aimed(b) && AimsBelow(i, |b.blocks|)
    ensures Aimed(Emit(b, i)) && Aimed(EmitValue(b, i))
  {
    var b' := Emit(b, i);
    forall j | 0 <= j < |b'.blocks| ensures BlockAimed(b'.blocks[j], |b'.blocks|) {
      assert BlockAimed(b.blocks[j], |b.blocks|);
    }
    assert EmitValue(b, i).blocks == b'.blocks;
    forall j | 0 <= j < |b'.blocks| ensures BlockAimed(EmitValue(b, i).blocks[j], |b'.blocks|) {
      assert BlockAimed(b'.blocks[j], |b'.blocks|);
    }
  }

  lemma EmitSound(a: Builder, b: Builder, i: Instr)
    requires Sound(a, b) && AimsBelow(i, |b.blocks|)
    ensures Sound(a, Emit(b, i)) && Sound(a, EmitValue(b, i))
  {
    if Aimed(b) {
      EmitAimed(b, i);
    }
    forall j | |a.blocks| <= j < |b.blocks| ensures Inserted(Emit(b, i), j) && Inserted(EmitValue(b, i), j) {
      assert Inserted(b, j);
    }
  }

  lemma CreateAimed(b: Builder, insert: bool)
    requires Aimed(b)
    ensures Aimed(Create(b, insert))
  {
    var b' := Create(b, insert);
    forall j | 0 <= j < |b'.blocks| ensures BlockAimed(b'.blocks[j], |b'.blocks|) {
      if j < |b.blocks| {
        assert BlockAimed(b.blocks[j], |b.blocks|);
        forall k | 0 <= k < |b.blocks[j]| ensures AimsBelow(b.blocks[j][k], |b'.blocks|) {
          assert AimsBelow(b.blocks[j][k], |b.blocks|);
        }
      }
    }
  }

  lemma CreateSound(b: Builder)
    ensures Sound(b, Create(b, true))
  {
    if Aimed(b) {
      CreateAimed(b, true);
    }
  }

  lemma AtSound(a: Builder, b: Builder, blk: nat)
    requires Sound(a, b) && blk < |b.blocks|
    ensures Sound(a, At(b, blk))
  {
    forall j | |a.blocks| <= j < |b.blocks| ensures Inserted(At(b, blk), j) {
      assert Inserted(b, j);
    }
    if Aimed(b) {
      forall j | 0 <= j < |b.blocks| ensures BlockAimed(At(b, blk).blocks[j], |b.blocks|) {
        assert BlockAimed(b.blocks[j], |b.blocks|);
      }
    }
  }

  lemma SoundFromAt(b: Builder, blk: nat, c: Builder)
    requires blk < |b.blocks| && Sound(At(b, blk), c)
    ensures Sound(b, c)
  {
    if Aimed(b) {
      forall j | 0 <= j < |b.blocks| ensures BlockAimed(At(b, blk).blocks[j], |b.blocks|) {
        assert BlockAimed(b.blocks[j], |b.blocks|);
      }
    }
  }

  // ----- expressions -----

  lemma {:induction false} SoundExpr(e: Expr, slots: Slots, b: Builder)
    ensures Sound(b, GenExpr(e, slots, b).1)
    decreases e, 2
  {
    match e
    case Literal(_) =>
    case Argument(_) =>
    case Local(d) => EmitSound(b, b, Load(b.regs, Reg(SlotOf(slots, d))));
    case Binary(op, ty, l, r) =>
      var (x, b1) := GenExpr(l, slots, b);
      var (y, b2) := GenExpr(r, slots, b1);
      SoundExpr(l, slots, b);
      SoundExpr(r, slots, b1);
      SoundTrans(b, b1, b2);
      EmitSound(b, b2, Compute(b2.regs, Select(op, ty), ty.Width(), x, y));
    case Logical(conj, _, _) =>
      SoundLogicalStart(conj, b);
      SoundDiamond(e, b.regs, |b.blocks|, slots, b, LogicalStart(conj, b));
    case Call(callee, es) =>
      var (os, b1) := GenAll(es, slots, b);
      SoundAll(es, slots, b);
      EmitSound(b, b1, Invoke(b1.regs, callee, os));
    case Cast(from, to, x) =>
      var (o, b1) := GenExpr(x, slots, b);
      SoundExpr(x, slots, b);
      EmitSound(b, b1, IntCast(b1.regs, from.Width(), to.Width(), o));
  }

  lemma CreateThreeSound(a: Builder, b: Builder)
    requires Sound(a, b)
    ensures Sound(a, Create(Create(Create(b, true), true), true))
  {
    CreateSound(b);
    CreateSound(Create(b, true));
    CreateSound(Create(Create(b, true), true));
    SoundTrans(a, b, Create(b, true));
    SoundTrans(a, Create(b, true), Create(Create(b, true), true));
    SoundTrans(a, Create(Create(b, true), true), Create(Create(Create(b, true), true), true));
  }

  lemma SoundLogicalStart(conj: bool, b: Builder)
    ensures Sound(b, LogicalStart(conj, b))
  {
    var b1 := EmitValue(b, Alloca(b.regs));
    EmitSound(b, b, Alloca(b.regs));
    EmitSound(b, b1, Store(Const(BoolWord(!conj)), Reg(b.regs)));
    CreateThreeSound(b, Emit(b1, Store(Const(BoolWord(!conj)), Reg(b.regs))));
  }

  lemma {:induction false} SoundTested(conj: bool, e: Expr, target: nat, first: nat, slots: Slots, a: Builder,
                                       b: Builder)
    requires Sound(a, b) && target < |b.blocks| && first + 2 < |b.blocks|
    ensures Sound(a, GenTested(conj, e, target, first, slots, b))
    decreases e, 3
  {
    var (x, b1) := GenExpr(e, slots, b);
    SoundExpr(e, slots, b);
    SoundTrans(a, b, b1);
    var i := Compute(b1.regs, IcmpEq, 1, x, Const(BoolWord(conj)));
    var j := CondBr(Reg(b1.regs), target, first + 2);
    EmitSound(a, b1, i);
    EmitSound(a, EmitValue(b1, i), j);
    AtSound(a, Emit(EmitValue(b1, i), j), target);
  }

  lemma {:induction false} SoundDiamond(e: Expr, temp: nat, first: nat, slots: Slots, a: Builder, b: Builder)
    requires e.Logical? && Sound(a, b) && first + 2 < |b.blocks|
    ensures Sound(a, Diamond(e, temp, first, slots, b).1)
    decreases e, 1
  {
    var b1 := GenTested(e.conj, e.lhs, first, first, slots, b);
    SoundTested(e.conj, e.lhs, first, first, slots, a, b);
    SoundTested(e.conj, e.rhs, first + 1, first, slots, a, b1);
    SoundResult(e.conj, Reg(temp), first, a, GenTested(e.conj, e.rhs, first + 1, first, slots, b1));
  }

  lemma SoundResult(conj: bool, temp: Operand, first: nat, a: Builder, b: Builder)
    requires Sound(a, b) && first + 2 < |b.blocks|
    ensures Sound(a, LogicalResult(conj, temp, first, b).1)
  {
    var b1 := Emit(b, Store(Const(BoolWord(conj)), temp));
    EmitSound(a, b, Store(Const(BoolWord(conj)), temp));
    EmitSound(a, b1, Br(first + 2));
    var b2 := At(Emit(b1, Br(first + 2)), first + 2);
    AtSound(a, Emit(b1, Br(first + 2)), first + 2);
    EmitSound(a, b2, Load(b2.regs, temp));
  }

  lemma {:induction false} SoundAll(es: seq<Expr>, slots: Slots, b: Builder)
    ensures Sound(b, GenAll(es, slots, b).1)
    decreases es
  {
    if es != [] {
      var b1 := GenExpr(es[0], slots, b).1;
      SoundExpr(es[0], slots, b);
      SoundAll(es[1..], slots, b1);
      SoundTrans(b, b1, GenAll(es[1..], slots, b1).1);
    }
  }

  // ----- statements -----

  lemma {:induction false} SoundStore(d: DeclId, e: Expr, slots: Slots, b: Builder)
    ensures Sound(b, GenStore(d, e, slots, b))
  {
    var (o, b1) := GenExpr(e, slots, b);
    SoundExpr(e, slots, b);
    EmitSound(b, b1, Store(o, Reg(SlotOf(slots, d))));
  }

  lemma {:induction false} SoundSteps(steps: seq<Step>, slots: Slots, b: Builder)
    ensures Sound(b, GenSteps(steps, slots, b))
    decreases steps
  {
    if steps != [] {
      var b1 := GenStep(steps[0], slots, b);
      if steps[0].Step? {
        SoundStore(steps[0].decl, steps[0].value, slots, b);
      }
      SoundSteps(steps[1..], slots, b1);
      SoundTrans(b, b1, GenSteps(steps[1..], slots, b1));
    }
  }

  /** Break and continue targets exist. */
  ghost predicate Targets(x: Context, b: Builder)
  {
    (x.brk.Some? ==> x.brk.value < |b.blocks|) && (x.cont.Some? ==> x.cont.value < |b.blocks|)
  }

  lemma {:induction false} SoundStmt(s: Stmt, x: Context, b: Builder)
    requires Targets(x, b)
    ensures Sound(b, GenStmt(s, x, b))
    decreases s, 2
  {
    hide Branches, IfStart, WhileEntry, Loop, GenStore, GenExpr, GenBlock;
    match s
    case Declare(d, e) => SoundStore(d, e, x.slots, b);
    case Assign(d, e) => SoundStore(d, e, x.slots, b);
    case Evaluate(e) => SoundExpr(e, x.slots, b);
    case Nested(body) => SoundBlock(body, x, b);
    case If(c, _, _) =>
      IfStartPending(c, x.slots, b);
      SoundBranches(s, x, b, IfStart(c, x.slots, b));
    case While(_, _, _) =>
      SoundWhileEntry(b);
      SoundLoop(s, x, |b.blocks|, b, WhileEntry(b));
    case Break => if x.brk.Some? { EmitSound(b, b, Br(x.brk.value)); }
    case Continue => if x.cont.Some? { EmitSound(b, b, Br(x.cont.value)); }
    case Return(None) => EmitSound(b, b, Ret(None));
    case Return(Some(e)) =>
      SoundExpr(e, x.slots, b);
      EmitSound(b, GenExpr(e, x.slots, b).1, Ret(Some(GenExpr(e, x.slots, b).0)));
    case _ =>
  }

  lemma {:induction false} SoundBlock(ss: seq<Stmt>, x: Context, b: Builder)
    requires Targets(x, b)
    ensures Sound(b, GenBlock(ss, x, b))
    decreases ss, 0
  {
    if ss == [] {
    } else if ss[0].IsTerminator() {
      var b1 := GenSteps(x.steps, x.slots, b);
      SoundSteps(x.steps, x.slots, b);
      SoundStmt(ss[0], x, b1);
      SoundTrans(b, b1, GenStmt(ss[0], x, b1));
    } else {
      var b1 := GenStmt(ss[0], x, b);
      SoundStmt(ss[0], x, b);
      if |ss| == 1 {
        SoundSteps(x.steps, x.slots, b1);
        SoundTrans(b, b1, GenSteps(x.steps, x.slots, b1));
      } else {
        SoundBlock(ss[1..], x, b1);
        SoundTrans(b, b1, GenBlock(ss[1..], x, b1));
      }
    }
  }

  lemma {:induction false} SoundArm(ss: seq<Stmt>, x: Context, blk: nat, next: nat, b: Builder)
    requires blk < |b.blocks| && next < |b.blocks| && Targets(x, b)
    ensures Sound(b, GenArm(ss, x, blk, next, b))
    decreases ss, 1
  {
    var b1 := GenBlock(ss, x, At(b, blk));
    SoundBlock(ss, x, At(b, blk));
    SoundFromAt(b, blk, b1);
    EmitSound(b, b1, Br(next));
  }

  /** While an if is generated, its else and done blocks exist but are not inserted. */
  ghost predicate Pending(b: Builder, b': Builder, waiting: set<int>)
  {
    && b.layout <= b'.layout
    && |b'.layout| - |b.layout| + |waiting| == |b'.blocks| - |b.blocks| >= 0
    && (forall i :: |b.blocks| <= i < |b'.blocks| && i !in waiting ==> Inserted(b', i))
    && (Aimed(b) ==> Aimed(b'))
  }

  lemma PendingThenSound(a: Builder, b: Builder, c: Builder, waiting: set<int>)
    requires Pending(a, b, waiting) && Sound(b, c)
    ensures Pending(a, c, waiting)
  {
    forall i | |a.blocks| <= i < |c.blocks| && i !in waiting ensures Inserted(c, i) {
      assert i < |b.blocks| ==> Inserted(b, i);
      assert i >= |b.blocks| ==> Inserted(c, i);
    }
  }

  lemma PendingInsert(a: Builder, b: Builder, waiting: set<int>, i: nat)
    requires Pending(a, b, waiting) && i in waiting
    ensures Pending(a, Insert(b, i), waiting - {i})
  {
    forall j | |a.blocks| <= j < |b.blocks| && j !in waiting - {i} ensures Inserted(Insert(b, i), j) {
      assert j != i ==> Inserted(b, j);
    }
    if Aimed(b) {
      forall j | 0 <= j < |b.blocks| ensures BlockAimed(Insert(b, i).blocks[j], |b.blocks|) {
        assert BlockAimed(b.blocks[j], |b.blocks|);
      }
    }
  }

  lemma {:induction false} IfStartPending(c: Expr, slots: Slots, b: Builder)
    ensures var b1 := IfStart(c, slots, b); var k := |b1.blocks|; Pending(b, b1, {k - 2, k - 1})
  {
    hide GenExpr, EmitValue, Sound, Pending;
    var (o, b1) := GenExpr(c, slots, b);
    var i := Compute(b1.regs, IcmpNe, 1, o, Const(0));
    var b2 := EmitValue(b1, i);
    SoundExpr(c, slots, b);
    EmitSound(b, b1, i);
    BranchToThree(b, b2, Reg(b1.regs));
  }

  lemma BranchToThree(a: Builder, b: Builder, o: Operand)
    requires Sound(a, b)
    ensures var c := Create(Create(Create(b, true), false), false); var k := |b.blocks|;
            Pending(a, Emit(c, CondBr(o, k, k + 1)), {k + 1, k + 2})
  {
    var c := Create(Create(Create(b, true), false), false);
    var k := |b.blocks|;
    var d := Emit(c, CondBr(o, k, k + 1));
    if Aimed(a) {
      CreateAimed(b, true);
      CreateAimed(Create(b, true), false);
      CreateAimed(Create(Create(b, true), false), false);
      EmitAimed(c, CondBr(o, k, k + 1));
    }
    assert d.layout == b.layout + [k];
    forall i | |a.blocks| <= i < |d.blocks| && i !in {k + 1, k + 2} ensures Inserted(d, i) {
      assert i < k ==> Inserted(b, i);
    }
    assert |{k + 1, k + 2}| == 2;
  }

  lemma {:induction false} SoundBranches(s: Stmt, x: Context, a: Builder, b: Builder)
    requires s.If? && Targets(x, b) && |b.blocks| >= |a.blocks| + 3
    requires Pending(a, b, {|b.blocks| - 2, |b.blocks| - 1})
    ensures Sound(a, Branches(s, x, b))
    decreases s, 0
  {
    hide Emit, GenExpr, Inserted, Laid, SlotOf, Terminated;
    var done := |b.blocks| - 1;
    var a1 := GenArm(s.thn, x, done - 2, done, b);
    PendingArm(s.thn, x, done - 2, done, done - 1, {done - 1, done}, a, b);
    assert {done - 1, done} - {done - 1} == {done};
    var b2 := Insert(a1, done - 1);
    PendingArm(s.els, x, done - 1, done, done, {done}, a, b2);
    assert {done} - {done} == {};
    AtSound(a, Insert(GenArm(s.els, x, done - 1, done, b2), done), done);
  }

  lemma {:induction false} PendingArm(ss: seq<Stmt>, x: Context, blk: nat, next: nat, i: nat, waiting: set<int>,
                                      a: Builder, b: Builder)
    requires Targets(x, b) && blk < |b.blocks| && next < |b.blocks| && i in waiting && Pending(a, b, waiting)
    ensures Pending(a, Insert(GenArm(ss, x, blk, next, b), i), waiting - {i})
    decreases ss, 2
  {
    SoundArm(ss, x, blk, next, b);
    PendingThenSound(a, b, GenArm(ss, x, blk, next, b), waiting);
    PendingInsert(a, GenArm(ss, x, blk, next, b), waiting, i);
  }

  lemma {:induction false} SoundLoop(s: Stmt, x: Context, head: nat, a: Builder, b: Builder)
    requires s.While? && Sound(a, b) && head + 2 < |b.blocks|
    ensures Sound(a, Loop(s, x, head, b))
    decreases s, 0
  {
    SoundLoopTest(s.cond, x.slots, head, a, b);
    SoundLoopBody(s.body, BodyContext(x, s.prologue, head), head, a, LoopTest(s.cond, x.slots, head, b));
  }

  lemma SoundWhileEntry(b: Builder)
    ensures Sound(b, WhileEntry(b))
  {
    var b1 := Create(Create(Create(b, true), true), true);
    CreateThreeSound(b, b);
    EmitSound(b, b1, Br(|b.blocks|));
    AtSound(b, Emit(b1, Br(|b.blocks|)), |b.blocks|);
  }

  lemma {:induction false} SoundLoopTest(c: Expr, slots: Slots, head: nat, a: Builder, b: Builder)
    requires Sound(a, b) && head + 2 < |b.blocks|
    ensures Sound(a, LoopTest(c, slots, head, b))
  {
    var (o, b1) := GenExpr(c, slots, b);
    var i := Compute(b1.regs, IcmpNe, 1, o, Const(0));
    SoundExpr(c, slots, b);
    SoundTrans(a, b, b1);
    EmitSound(a, b1, i);
    EmitSound(a, EmitValue(b1, i), CondBr(Reg(b1.regs), head + 1, head + 2));
  }

  lemma {:induction false} SoundLoopBody(body: seq<Stmt>, x: Context, head: nat, a: Builder, h: Builder)
    requires Sound(a, h) && head + 2 < |h.blocks| && Targets(x, h)
    ensures Sound(a, At(GenArm(body, x, head + 1, head, h), head + 2))
    decreases body, 2
  {
    SoundArm(body, x, head + 1, head, h);
    SoundTrans(a, h, GenArm(body, x, head + 1, head, h));
    AtSound(a, GenArm(body, x, head + 1, head, h), head + 2);
  }

  // ----- procedures -----

  lemma {:induction false} SoundAllocs(ds: seq<DeclId>, slots: Slots, b: Builder)
    ensures Sound(b, AllocLocals(ds, slots, b).1)
    decreases ds
  {
    if ds != [] {
      var b1 := EmitValue(b, Alloca(b.regs));
      EmitSound(b, b, Alloca(b.regs));
      SoundAllocs(ds[1..], slots[ds[0] := b.regs], b1);
      SoundTrans(b, b1, AllocLocals(ds[1..], slots[ds[0] := b.regs], b1).1);
    }
  }

  /** The layout lists every block of the function, as often as there are blocks, and every
      branch goes to a listed block. */
  lemma {:induction false} ProcedureIsLaidOut(body: seq<Stmt>)
    ensures var b := GenProcedure(body);
            && |b.layout| == |b.blocks|
            && (forall i :: 0 <= i < |b.blocks| ==> i in b.layout)
            && Aimed(b)
  {
    var (slots, b) := AllocLocals(Locals(body), map[], ENTRY_BUILDER);
    var x := Context(slots, [], None, None);
    SoundAllocs(Locals(body), map[], ENTRY_BUILDER);
    SoundBlock(body, x, b);
    SoundTrans(ENTRY_BUILDER, b, GenBlock(body, x, b));
    forall i | 0 <= i < |GenProcedure(body).blocks| ensures i in GenProcedure(body).layout {
      assert i > 0 ==> Inserted(GenProcedure(body), i);
      assert ENTRY_BUILDER.layout[0] == 0;
    }
  }
}
