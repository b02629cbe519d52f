// The converse of BlockShape: dead code behind a terminator leaves a malformed block; and
// the two together for procedures.
module DeadCode {
  import opened Words
  import opened Tree
  import opened Ir
  import opened Lowering
  import opened Growth
  import opened BlockShape

  ghost predicate BrokenAt(c: Code, i: int, k: int)
    requires 0 <= i < |c| && 0 <= k < |c[i]| - 1
  {
    c[i][k].IsTerminator()
  }

  /** Some block has a terminator that is not its last instruction. */
  ghost predicate Broken(c: Code)
  {
    exists i, k :: 0 <= i < |c| && 0 <= k < |c[i]| - 1 && BrokenAt(c, i, k)
  }

  lemma BrokenStays(c: Code, c': Code)
    requires Broken(c) && Extends(c, c')
    ensures Broken(c')
  {
    var i, k :| 0 <= i < |c| && 0 <= k < |c[i]| - 1 && BrokenAt(c, i, k);
    assert PrefixAt(c, c', i);
    assert BrokenAt(c', i, k);
  }

  lemma BrokenLater(b: Builder, b': Builder)
    requires Broken(b.blocks) && Keeps(b, b')
    ensures Broken(b'.blocks)
  {
    KeepsExtends(b, b');
    BrokenStays(b.blocks, b'.blocks);
  }

  /** Something has been appended at the insert point. */
  ghost predicate Appended(b: Builder, b': Builder)
    requires |b.blocks| <= |b'.blocks|
  {
    |b'.blocks[b.cur]| > |b.blocks[b.cur]|
  }

  lemma AppendedLater(a: Builder, b: Builder, c: Builder)
    requires Grows(a, b) && Keeps(b, c) && (b == a || Appended(a, b)) && (Appended(b, c) || Appended(a, b))
    ensures Appended(a, c)
  {
    if Appended(a, b) {
      KeepsTrans(a, b, c);
      assert a.cur != b.cur ==> SameAt(b.blocks, c.blocks, a.cur);
      assert a.cur == b.cur ==> PrefixAt(b.blocks, c.blocks, b.cur);
    }
  }

  lemma DeadEmission(b: Builder, b': Builder)
    requires Terminated(b) && Keeps(b, b') && Appended(b, b')
    ensures Broken(b'.blocks)
  {
    assert PrefixAt(b.blocks, b'.blocks, b.cur);
    assert BrokenAt(b'.blocks, b.cur, |b.blocks[b.cur]| - 1);
  }

  // ----- emission appends -----

  lemma {:induction false} ExprAppends(e: Expr, slots: Slots, b: Builder)
    ensures var b' := GenExpr(e, slots, b).1;
            Grows(b, b') && if e.Literal? || e.Argument? then b' == b else Appended(b, b')
    decreases e
  {
    GrowExpr(e, slots, b);
    match e
    case Binary(op, ty, l, r) =>
      var (x, b1) := GenExpr(l, slots, b);
      var (y, b2) := GenExpr(r, slots, b1);
      ExprAppends(l, slots, b);
      ExprAppends(r, slots, b1);
      EmittedAfter(b, b1, b2, Compute(b2.regs, Select(op, ty), ty.Width(), x, y));
    case Logical(_, _, _) => LogicalAppends(e, slots, b);
    case Call(callee, es) =>
      var (os, b1) := GenAll(es, slots, b);
      AllAppend(es, slots, b);
      EmittedAfter(b, b, b1, Invoke(b1.regs, callee, os));
    case Cast(from, to, x) =>
      var (o, b1) := GenExpr(x, slots, b);
      ExprAppends(x, slots, b);
      EmittedAfter(b, b, b1, IntCast(b1.regs, from.Width(), to.Width(), o));
    case Local(d) => EmittedAfter(b, b, b, Load(b.regs, Reg(SlotOf(slots, d))));
    case _ =>
  }

  lemma {:induction false} LogicalAppends(e: Expr, slots: Slots, b: Builder)
    requires e.Logical?
    ensures Appended(b, GenExpr(e, slots, b).1)
  {
    var s := LogicalStart(e.conj, b);
    GrowLogicalStart(e.conj, b);
    assert Appended(b, s);
    DiamondLeaves(e, b.regs, |b.blocks|, slots, s);
  }

  lemma {:induction false} DiamondLeaves(e: Expr, temp: nat, first: nat, slots: Slots, s: Builder)
    requires e.Logical? && s.cur < first && first + 2 < |s.blocks|
    ensures |Diamond(e, temp, first, slots, s).1.blocks[s.cur]| >= |s.blocks[s.cur]|
  {
    var b1 := GenTested(e.conj, e.lhs, first, first, slots, s);
    var b2 := GenTested(e.conj, e.rhs, first + 1, first, slots, b1);
    GrowTested(e.conj, e.lhs, first, first, slots, s);
    GrowTested(e.conj, e.rhs, first + 1, first, slots, b1);
    assert PrefixAt(s.blocks, b1.blocks, s.cur);
    assert SameAt(b1.blocks, b2.blocks, s.cur);
    ResultLeaves(e.conj, Reg(temp), first, b2, s.cur);
  }

  lemma ResultLeaves(conj: bool, temp: Operand, first: nat, b: Builder, j: nat)
    requires first + 2 < |b.blocks| && j < first && b.cur == first + 1
    ensures LogicalResult(conj, temp, first, b).1.blocks[j] == b.blocks[j]
  {}

  lemma EmittedAfter(a: Builder, b: Builder, c: Builder, i: Instr)
    requires Grows(a, b) && (b == a || Appended(a, b)) && Grows(b, c) && (c == b || Appended(b, c))
    ensures Appended(a, Emit(c, i)) && Appended(a, EmitValue(c, i))
  {
    GrowsTrans(a, b, c);
    EmitGrows(c, c, i);
    if c != b {
      AppendedLater(a, b, c);
    }
    AppendedLater(a, c, Emit(c, i));
    AppendedLater(a, c, EmitValue(c, i));
  }

  lemma {:induction false} AllAppend(es: seq<Expr>, slots: Slots, b: Builder)
    ensures var b' := GenAll(es, slots, b).1; Grows(b, b') && (b' == b || Appended(b, b'))
    decreases es
  {
    GrowAll(es, slots, b);
    if es != [] {
      var b1 := GenExpr(es[0], slots, b).1;
      ExprAppends(es[0], slots, b);
      AllAppend(es[1..], slots, b1);
      var b2 := GenAll(es[1..], slots, b1).1;
      if b2 != b1 {
        AppendedLater(b, b1, b2);
      }
    }
  }

  lemma {:induction false} StoreAppends(d: DeclId, e: Expr, slots: Slots, b: Builder)
    ensures Grows(b, GenStore(d, e, slots, b)) && Appended(b, GenStore(d, e, slots, b))
  {
    var (o, b1) := GenExpr(e, slots, b);
    GrowStore(d, e, slots, b);
    ExprAppends(e, slots, b);
    EmittedAfter(b, b, b1, Store(o, Reg(SlotOf(slots, d))));
  }

  lemma {:induction false} StepsAppend(steps: seq<Step>, slots: Slots, b: Builder)
    ensures var b' := GenSteps(steps, slots, b); Grows(b, b') && if HasStep(steps) then Appended(b, b') else b' == b
    decreases steps
  {
    GrowSteps(steps, slots, b);
    if !HasStep(steps) {
      SilentSteps(steps, slots, b);
    } else {
      var b1 := GenStep(steps[0], slots, b);
      StepsAppend(steps[1..], slots, b1);
      if steps[0].Step? {
        StoreAppends(steps[0].decl, steps[0].value, slots, b);
        AppendedLater(b, b1, GenSteps(steps[1..], slots, b1));
      } else {
        var k :| 0 <= k < |steps| && steps[k].Step?;
        assert steps[1..][k - 1].Step?;
      }
    }
  }

  lemma {:induction false} StmtAppends(s: Stmt, x: Context, inLoop: bool, p: DeclId -> bool, b: Builder)
    requires Emits(s, x.steps) && StmtOk(s, p, inLoop) && InContext(x, inLoop)
    ensures Appended(b, GenStmt(s, x, b))
    decreases s
  {
    match s
    case Declare(d, e) => StoreAppends(d, e, x.slots, b);
    case Assign(d, e) => StoreAppends(d, e, x.slots, b);
    case Evaluate(e) => ExprAppends(e, x.slots, b);
    case Nested(body) => BlockAppends(body, x, inLoop, p, b);
    case If(c, _, _) =>
      GrowIfStart(c, x.slots, b);
      IfStartAppends(c, x.slots, b);
      BranchesLeave(s, x, IfStart(c, x.slots, b), b.cur);
    case While(_, _, _) =>
      GrowWhileEntry(b);
      assert Appended(b, WhileEntry(b));
      LoopLeaves(s, x, |b.blocks|, WhileEntry(b), b.cur);
    case Return(Some(e)) =>
      ExprAppends(e, x.slots, b);
      EmittedAfter(b, b, GenExpr(e, x.slots, b).1, Ret(Some(GenExpr(e, x.slots, b).0)));
    case _ =>
  }

  lemma {:induction false} BlockAppends(ss: seq<Stmt>, x: Context, inLoop: bool, p: DeclId -> bool, b: Builder)
    requires AnyEmits(ss, x.steps) && BlockOk(ss, p, inLoop) && InContext(x, inLoop)
    ensures Appended(b, GenBlock(ss, x, b))
    decreases ss
  {
    if ss[0].IsTerminator() {
      var b1 := GenSteps(x.steps, x.slots, b);
      StepsAppend(x.steps, x.slots, b);
      StmtAppends(ss[0], x, inLoop, p, b1);
      GrowStmt(ss[0], x, b1);
      AppendedLater(b, b1, GenStmt(ss[0], x, b1));
    } else {
      var b1 := GenStmt(ss[0], x, b);
      GrowStmt(ss[0], x, b);
      if Emits(ss[0], x.steps) {
        StmtAppends(ss[0], x, inLoop, p, b);
      } else {
        SilentStmt(ss[0], x, b);
      }
      if |ss| == 1 {
        StepsAppend(x.steps, x.slots, b1);
        AppendedLater(b, b1, GenSteps(x.steps, x.slots, b1));
      } else {
        GrowBlock(ss[1..], x, b1);
        if AnyEmits(ss[1..], x.steps) {
          BlockAppends(ss[1..], x, inLoop, p, b1);
        }
        AppendedLater(b, b1, GenBlock(ss[1..], x, b1));
      }
    }
  }

  lemma {:induction false} BranchesLeave(s: Stmt, x: Context, b: Builder, j: nat)
    requires s.If? && |b.blocks| >= 3 && j < |b.blocks| - 3
    ensures Branches(s, x, b).blocks[j] == b.blocks[j]
  {
    var done := |b.blocks| - 1;
    ArmLeaves(s.thn, x, done - 2, done, b, j);
    ArmLeaves(s.els, x, done - 1, done, Insert(GenArm(s.thn, x, done - 2, done, b), done - 1), j);
  }

  lemma {:induction false} IfStartAppends(c: Expr, slots: Slots, b: Builder)
    ensures Appended(b, IfStart(c, slots, b))
  {
    var (o, b1) := GenExpr(c, slots, b);
    ExprAppends(c, slots, b);
    var b2 := EmitValue(b1, Compute(b1.regs, IcmpNe, 1, o, Const(0)));
    EmittedAfter(b, b, b1, Compute(b1.regs, IcmpNe, 1, o, Const(0)));
    var b3 := Create(Create(Create(b2, true), false), false);
    assert b3.blocks[b.cur] == b2.blocks[b.cur];
  }

  lemma {:induction false} LoopLeaves(s: Stmt, x: Context, head: nat, e: Builder, j: nat)
    requires s.While? && j < head && head + 2 < |e.blocks| && e.cur == head
    ensures Loop(s, x, head, e).blocks[j] == e.blocks[j]
  {
    var h := LoopTest(s.cond, x.slots, head, e);
    GrowLoopTest(s.cond, x.slots, head, e);
    assert SameAt(e.blocks, h.blocks, j);
    ArmLeaves(s.body, BodyContext(x, s.prologue, head), head + 1, head, h, j);
  }

  lemma {:induction false} ArmLeaves(ss: seq<Stmt>, x: Context, blk: nat, next: nat, b: Builder, j: nat)
    requires blk < |b.blocks| && j < |b.blocks| && j != blk
    ensures GenArm(ss, x, blk, next, b).blocks[j] == b.blocks[j]
  {
    GrowArm(ss, x, blk, next, b);
    assert SameAt(At(b, blk).blocks, GenArm(ss, x, blk, next, b).blocks, j);
  }

  // ----- dead code breaks a block -----

  lemma {:induction false} SilentIsNotDead(ss: seq<Stmt>, steps: seq<Step>)
    requires !AnyEmits(ss, steps)
    ensures NoDeadCodeIn(ss, steps) && !SomeSeals(ss)
    decreases ss
  {
    if ss != [] {
      if ss[0].Nested? {
        SilentIsNotDead(ss[0].body, steps);
      }
      if |ss| > 1 {
        SilentIsNotDead(ss[1..], steps);
      } else {
        assert NoDeadCodeIn(ss[1..], steps) && !SomeSeals(ss[1..]);
      }
    }
  }

  lemma {:induction false} DeadStmt(s: Stmt, x: Context, inLoop: bool, p: DeclId -> bool, b: Builder)
    requires Open(b) && StmtOk(s, p, inLoop) && InContext(x, inLoop) && !NoDeadCode(s, x.steps)
    ensures Broken(GenStmt(s, x, b).blocks)
    decreases s, 2
  {
    match s
    case Nested(body) => DeadBlock(body, x, inLoop, p, b);
    case If(c, _, _) =>
      GrowIfStart(c, x.slots, b);
      DeadBranches(s, x, inLoop, p, IfStart(c, x.slots, b));
    case While(_, _, _) =>
      GrowWhileEntry(b);
      DeadLoop(s, x, p, |b.blocks|, WhileEntry(b));
  }

  lemma {:induction false} DeadBlock(ss: seq<Stmt>, x: Context, inLoop: bool, p: DeclId -> bool, b: Builder)
    requires Open(b) && BlockOk(ss, p, inLoop) && InContext(x, inLoop) && !NoDeadCodeIn(ss, x.steps)
    ensures Broken(GenBlock(ss, x, b).blocks)
    decreases ss, 1
  {
    var b1 := GenStmt(ss[0], x, b);
    var b2 := if |ss| == 1 then GenSteps(x.steps, x.slots, b1) else GenBlock(ss[1..], x, b1);
    GrowSteps(x.steps, x.slots, b1);
    GrowBlock(ss[1..], x, b1);
    if !NoDeadCode(ss[0], x.steps) {
      DeadStmt(ss[0], x, inLoop, p, b);
      BrokenLater(b1, b2);
    } else {
      ShapeStmt(ss[0], x, inLoop, p, b);
      if Seals(ss[0]) {
        if |ss| == 1 {
          StepsAppend(x.steps, x.slots, b1);
        } else if AnyEmits(ss[1..], x.steps) {
          BlockAppends(ss[1..], x, inLoop, p, b1);
        } else {
          SilentIsNotDead(ss[1..], x.steps);
        }
        DeadEmission(b1, b2);
      } else {
        DeadBlock(ss[1..], x, inLoop, p, b1);
      }
    }
  }

  lemma {:induction false} DeadArm(ss: seq<Stmt>, x: Context, inLoop: bool, p: DeclId -> bool, blk: nat, next: nat,
                                   b: Builder)
    requires blk < |b.blocks| && b.blocks[blk] == []
    requires BlockOk(ss, p, inLoop) && InContext(x, inLoop) && !NoDeadCodeIn(ss, x.steps)
    ensures Broken(GenArm(ss, x, blk, next, b).blocks)
    decreases ss, 2
  {
    var b1 := GenBlock(ss, x, At(b, blk));
    DeadBlock(ss, x, inLoop, p, At(b, blk));
    EmitGrows(b1, b1, Br(next));
    BrokenLater(b1, BrIfOpen(b1, next));
  }

  lemma {:induction false} DeadBranches(s: Stmt, x: Context, inLoop: bool, p: DeclId -> bool, b: Builder)
    requires s.If? && StmtOk(s, p, inLoop) && InContext(x, inLoop) && !NoDeadCode(s, x.steps)
    requires var k := |b.blocks|; k > 3 && b.cur < k - 3 && b.blocks[k - 3] == b.blocks[k - 2] == b.blocks[k - 1] == []
    ensures Broken(Branches(s, x, b).blocks)
    decreases s, 0
  {
    var done := |b.blocks| - 1;
    var b2 := Insert(GenArm(s.thn, x, done - 2, done, b), done - 1);
    if !NoDeadCodeIn(s.thn, x.steps) {
      DeadArm(s.thn, x, inLoop, p, done - 2, done, b);
      GrowArm(s.els, x, done - 1, done, b2);
      BrokenLater(At(b2, done - 1), GenArm(s.els, x, done - 1, done, b2));
    } else {
      ArmLeaves(s.thn, x, done - 2, done, b, done - 1);
      DeadArm(s.els, x, inLoop, p, done - 1, done, b2);
    }
  }

  lemma {:induction false} DeadLoop(s: Stmt, x: Context, p: DeclId -> bool, head: nat, e: Builder)
    requires s.While? && StmtOk(s, p, true) && !NoDeadCode(s, x.steps)
    requires head + 2 < |e.blocks| && e.cur == head && e.blocks[head + 1] == []
    ensures Broken(Loop(s, x, head, e).blocks)
    decreases s, 0
  {
    var h := LoopTest(s.cond, x.slots, head, e);
    GrowLoopTest(s.cond, x.slots, head, e);
    assert SameAt(e.blocks, h.blocks, head + 1);
    DeadArm(s.body, BodyContext(x, s.prologue, head), true, p, head + 1, head, h);
  }

  // ----- procedures -----

  lemma {:induction false} ShapeAllocs(ds: seq<DeclId>, slots: Slots, b: Builder)
    requires Open(b)
    ensures var b' := AllocLocals(ds, slots, b).1; Open(b') && |b'.blocks| == |b.blocks| && b'.cur == b.cur
    decreases ds
  {
    if ds != [] {
      EmitShaped(b, b, Alloca(b.regs));
      ShapeAllocs(ds[1..], slots[ds[0] := b.regs], EmitValue(b, Alloca(b.regs)));
    }
  }

  lemma {:induction false} TopReturnSeals(ss: seq<Stmt>)
    requires TopReturn(ss)
    ensures SomeSeals(ss)
    decreases ss
  {
    if !ss[0].Return? {
      TopReturnSeals(ss[1..]);
    }
  }

  /** Every block of an accepted procedure ends in exactly one terminator, with nothing
      behind it, if and only if no bare block that ends in one is followed by code. */
  lemma {:induction false} BlocksClosedIffNoDeadCode(body: seq<Stmt>)
    requires BodyOk(body)
    ensures (forall i :: 0 <= i < |GenProcedure(body).blocks| ==> ClosedAt(GenProcedure(body), i))
            <==> NoDeadCodeIn(body, [])
  {
    var (slots, b) := AllocLocals(Locals(body), map[], ENTRY_BUILDER);
    var x := Context(slots, [], None, None);
    var b' := GenProcedure(body);
    ShapeAllocs(Locals(body), map[], ENTRY_BUILDER);
    if NoDeadCodeIn(body, []) {
      ShapeBlock(body, x, false, Declared(body), b);
      TopReturnSeals(body);
      forall i | 0 <= i < |b'.blocks| ensures ClosedAt(b', i) {
        assert i != b'.cur ==> ClosedAt(b', i) by { assert i == b.cur || i >= |b.blocks|; }
      }
    } else {
      DeadBlock(body, x, false, Declared(body), b);
      var i, k :| 0 <= i < |b'.blocks| && 0 <= k < |b'.blocks[i]| - 1 && BrokenAt(b'.blocks, i, k);
      assert !ClosedAt(b', i);
    }
  }
}
