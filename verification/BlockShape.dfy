// When every emitted block ends in exactly one terminator, with nothing after it.
module BlockShape {
  import opened Words
  import opened Tree
  import opened Ir
  import opened Lowering
  import opened Growth
  import opened SimulateExpr

  // ----- what statements emit -----

  predicate HasStep(steps: seq<Step>) { exists k :: 0 <= k < |steps| && steps[k].Step? }

  /** Generating the statement appends something at the insert point. */
  predicate Emits(s: Stmt, steps: seq<Step>)
  {
    match s
    case Evaluate(e) => !e.Literal? && !e.Argument?
    case Nested(body) => AnyEmits(body, steps)
    case ErrorBlock(_) => false
    case For(_, _, _, _, _, _, _) => false
    case _ => true
  }

  predicate AnyEmits(ss: seq<Stmt>, steps: seq<Step>)
  {
    ss != [] && (ss[0].IsTerminator() || Emits(ss[0], steps) ||
                 (if |ss| == 1 then HasStep(steps) else AnyEmits(ss[1..], steps)))
  }

  /** The statement leaves the insert point behind a terminator. */
  predicate Seals(s: Stmt)
  {
    s.IsTerminator() || (s.Nested? && SomeSeals(s.body))
  }

  predicate SomeSeals(ss: seq<Stmt>)
  {
    ss != [] && (Seals(ss[0]) || SomeSeals(ss[1..]))
  }

  /** Nothing is emitted behind a terminator: after a bare block that ends in one, the rest
      of the enclosing block and the pending steps are silent. */
  predicate NoDeadCode(s: Stmt, steps: seq<Step>)
  {
    match s
    case Nested(body) => NoDeadCodeIn(body, steps)
    case If(_, t, e) => NoDeadCodeIn(t, steps) && NoDeadCodeIn(e, steps)
    case While(_, body, step) => NoDeadCodeIn(body, steps + [step])
    case _ => true
  }

  predicate NoDeadCodeIn(ss: seq<Stmt>, steps: seq<Step>)
  {
    ss == [] || ss[0].IsTerminator() ||
    (&& NoDeadCode(ss[0], steps)
     && (Seals(ss[0]) ==> if |ss| == 1 then !HasStep(steps) else !AnyEmits(ss[1..], steps))
     && NoDeadCodeIn(ss[1..], steps))
  }

  // ----- blocks -----

  ghost predicate Clean(ii: seq<Instr>)
  {
    forall k :: 0 <= k < |ii| - 1 ==> !ii[k].IsTerminator()
  }

  /** One terminator, at the end. */
  ghost predicate Closed(ii: seq<Instr>)
  {
    |ii| > 0 && ii[|ii| - 1].IsTerminator() && Clean(ii)
  }

  ghost predicate Open(b: Builder)
  {
    !Terminated(b) && Clean(b.blocks[b.cur])
  }

  ghost predicate ClosedAt(b: Builder, i: int)
    requires 0 <= i < |b.blocks|
  {
    Closed(b.blocks[i])
  }

  /** The block b was at and those created since are closed, except those of w. */
  ghost predicate Finished(b: Builder, b': Builder, w: set<int>)
    requires |b.blocks| <= |b'.blocks|
  {
    && (b.cur !in w ==> ClosedAt(b', b.cur))
    && forall i :: |b.blocks| <= i < |b'.blocks| && i !in w ==> ClosedAt(b', i)
  }

  /** Only the block at the insert point may be unfinished. */
  ghost predicate Shaped(b: Builder, b': Builder)
  {
    |b.blocks| <= |b'.blocks| && Finished(b, b', {b'.cur}) && Clean(b'.blocks[b'.cur])
  }

  lemma ShapedItself(b: Builder)
    requires Open(b)
    ensures Shaped(b, b)
  {}

  lemma ShapedTrans(a: Builder, b: Builder, c: Builder)
    requires Grows(a, b) && Grows(b, c) && Shaped(a, b) && Shaped(b, c)
    ensures Shaped(a, c)
  {
    if a.cur != c.cur {
      assert ClosedAt(c, a.cur) by {
        if a.cur != b.cur { assert ClosedAt(b, a.cur) && SameAt(b.blocks, c.blocks, a.cur); }
      }
    }
    forall i | |a.blocks| <= i < |c.blocks| && i != c.cur ensures ClosedAt(c, i) {
      if i < |b.blocks| && i != b.cur { assert ClosedAt(b, i) && SameAt(b.blocks, c.blocks, i); }
    }
  }

  /** Finishing one of the unfinished blocks. */
  lemma FinishOne(a: Builder, b: Builder, c: Builder, w: set<int>, blk: nat)
    requires |a.blocks| <= |b.blocks| && Finished(a, b, w) && blk in w && blk < |b.blocks|
    requires Keeps(At(b, blk), c) && Finished(At(b, blk), c, {})
    ensures Finished(a, c, w - {blk})
  {
    var v := w - {blk};
    if a.cur !in v && a.cur != blk {
      assert ClosedAt(b, a.cur) && SameAt(At(b, blk).blocks, c.blocks, a.cur);
    }
    forall i | |a.blocks| <= i < |c.blocks| && i !in v ensures ClosedAt(c, i) {
      if i < |b.blocks| && i != blk { assert ClosedAt(b, i) && SameAt(At(b, blk).blocks, c.blocks, i); }
      if i == blk { assert ClosedAt(c, At(b, blk).cur); }
    }
  }

  lemma EmitShaped(a: Builder, b: Builder, i: Instr)
    requires |a.blocks| <= |b.blocks| && Shaped(a, b) && Open(b)
    ensures Shaped(a, Emit(b, i)) && Shaped(a, EmitValue(b, i))
    ensures !i.IsTerminator() ==> Open(Emit(b, i)) && Open(EmitValue(b, i))
    ensures i.IsTerminator() ==> Terminated(Emit(b, i)) && Finished(a, Emit(b, i), {})
  {
    var c := Emit(b, i);
    assert i.IsTerminator() ==> ClosedAt(c, b.cur);
    forall j | |a.blocks| <= j < |b.blocks| && j != b.cur ensures ClosedAt(c, j) && ClosedAt(EmitValue(b, i), j) {
      assert ClosedAt(b, j);
    }
    if a.cur != b.cur { assert ClosedAt(b, a.cur); }
  }

  // ----- expressions keep the insert point open -----

  lemma {:induction false} ShapeExpr(e: Expr, slots: Slots, b: Builder)
    requires Open(b)
    ensures var b' := GenExpr(e, slots, b).1; Shaped(b, b') && Open(b')
    decreases e, 2
  {
    hide Shaped, Clean, Grows, LogicalStart, Diamond, Select, GenAll;
    match e
    case Literal(_) => ShapedItself(b);
    case Argument(_) => ShapedItself(b);
    case Local(d) =>
      ShapedItself(b);
      EmitShaped(b, b, Load(b.regs, Reg(SlotOf(slots, d))));
    case Binary(op, ty, l, r) =>
      var (x, b1) := GenExpr(l, slots, b);
      var (y, b2) := GenExpr(r, slots, b1);
      ShapeExpr(l, slots, b);
      ShapeExpr(r, slots, b1);
      GrowExpr(l, slots, b);
      GrowExpr(r, slots, b1);
      ShapedTrans(b, b1, b2);
      EmitShaped(b, b2, Compute(b2.regs, Select(op, ty), ty.Width(), x, y));
    case Logical(conj, _, _) => ShapeLogical(e, slots, b);
    case Call(callee, es) =>
      var (os, b1) := GenAll(es, slots, b);
      ShapeAll(es, slots, b);
      EmitShaped(b, b1, Invoke(b1.regs, callee, os));
    case Cast(from, to, x) =>
      var (o, b1) := GenExpr(x, slots, b);
      ShapeExpr(x, slots, b);
      EmitShaped(b, b1, IntCast(b1.regs, from.Width(), to.Width(), o));
  }

  lemma {:induction false} ShapeAll(es: seq<Expr>, slots: Slots, b: Builder)
    requires Open(b)
    ensures var b' := GenAll(es, slots, b).1; Shaped(b, b') && Open(b')
    decreases es
  {
    if es != [] {
      var b1 := GenExpr(es[0], slots, b).1;
      ShapeExpr(es[0], slots, b);
      ShapeAll(es[1..], slots, b1);
      GrowExpr(es[0], slots, b);
      GrowAll(es[1..], slots, b1);
      ShapedTrans(b, b1, GenAll(es[1..], slots, b1).1);
    }
  }

  /** An operand of && or || closes the block it started in. */
  lemma {:induction false} ShapeTested(conj: bool, e: Expr, target: nat, first: nat, slots: Slots, b: Builder)
    requires Open(b) && target < |b.blocks|
    ensures Finished(b, GenTested(conj, e, target, first, slots, b), {})
    decreases e, 3
  {
    var (x, b1) := GenExpr(e, slots, b);
    ShapeExpr(e, slots, b);
    var i := Compute(b1.regs, IcmpEq, 1, x, Const(BoolWord(conj)));
    var j := CondBr(Reg(b1.regs), target, first + 2);
    EmitShaped(b, b1, i);
    EmitShaped(b, EmitValue(b1, i), j);
    FinishedElsewhere(b, Emit(EmitValue(b1, i), j), target, {});
  }

  lemma FinishedElsewhere(a: Builder, b: Builder, blk: nat, w: set<int>)
    requires |a.blocks| <= |b.blocks| && blk < |b.blocks|
    ensures Finished(a, b, w) <==> Finished(a, At(b, blk), w)
  {
    forall i | 0 <= i < |b.blocks| ensures ClosedAt(b, i) == ClosedAt(At(b, blk), i) {}
  }

  lemma {:induction false} ShapeLogical(e: Expr, slots: Slots, b: Builder)
    requires e.Logical? && Open(b)
    ensures var b' := GenExpr(e, slots, b).1; Shaped(b, b') && Open(b')
    decreases e, 1
  {
    hide Open, Shaped, LogicalStart, Diamond;
    GrowLogicalStart(e.conj, b);
    StartStaysOpen(e.conj, b);
    ShapeDiamond(e, b.regs, |b.blocks|, slots, b, LogicalStart(e.conj, b));
  }

  lemma StartStaysOpen(conj: bool, b: Builder)
    requires Open(b)
    ensures Open(LogicalStart(conj, b))
  {
    hide Open, Shaped, Clean, Finished;
    var i := Store(Const(BoolWord(!conj)), Reg(b.regs));
    ShapedItself(b);
    EmitShaped(b, b, Alloca(b.regs));
    EmitShaped(b, EmitValue(b, Alloca(b.regs)), i);
    OpenWithNewBlocks(Emit(EmitValue(b, Alloca(b.regs)), i));
  }

  lemma OpenWithNewBlocks(b: Builder)
    requires Open(b)
    ensures Open(Create(Create(Create(b, true), true), true))
  {}

  lemma {:induction false} ShapeDiamond(e: Expr, temp: nat, first: nat, slots: Slots, a: Builder, s: Builder)
    requires e.Logical? && Open(s) && a.cur == s.cur < |a.blocks| == first && |s.blocks| == first + 3
    requires s.blocks[first] == s.blocks[first + 1] == s.blocks[first + 2] == []
    ensures var b' := Diamond(e, temp, first, slots, s).1; Shaped(a, b') && Open(b')
    decreases e, 0
  {
    hide LogicalStart, Select, Shaped;
    var b1 := GenTested(e.conj, e.lhs, first, first, slots, s);
    var b2 := GenTested(e.conj, e.rhs, first + 1, first, slots, b1);
    var w := {a.cur, first, first + 1, first + 2};
    assert Finished(a, s, w);
    DiamondBlocks(e.conj, e.lhs, e.rhs, first, slots, s);
    ShapeTested(e.conj, e.lhs, first, first, slots, s);
    assert At(s, a.cur) == s;
    FinishOne(a, s, b1, w, a.cur);
    ShapeTested(e.conj, e.rhs, first + 1, first, slots, b1);
    assert At(b1, first) == b1;
    FinishOne(a, b1, b2, w - {a.cur}, first);
    ShapeResult(e.conj, Reg(temp), first, a, b2, w - {a.cur} - {first});
  }

  lemma ShapeResult(conj: bool, temp: Operand, first: nat, a: Builder, b: Builder, w: set<int>)
    requires first + 2 < |b.blocks| && |a.blocks| <= first && b.cur == first + 1
    requires b.blocks[first + 1] == b.blocks[first + 2] == [] && Finished(a, b, w) && w == {first + 1, first + 2}
    ensures var b' := LogicalResult(conj, temp, first, b).1; Shaped(a, b') && Open(b')
  {
    var b1 := Emit(b, Store(Const(BoolWord(conj)), temp));
    var b2 := Emit(b1, Br(first + 2));
    assert At(b, first + 1) == b;
    EmitShaped(b, b, Store(Const(BoolWord(conj)), temp));
    EmitShaped(b, b1, Br(first + 2));
    EmitGrows(b, b, Store(Const(BoolWord(conj)), temp));
    EmitGrows(b, b1, Br(first + 2));
    FinishOne(a, b, b2, w, first + 1);
    var b3 := At(b2, first + 2);
    assert w - {first + 1} == {first + 2};
    FinishedElsewhere(a, b2, first + 2, {first + 2});
    assert b3.blocks[first + 2] == [] by { assert SameAt(b.blocks, b2.blocks, first + 2); }
    EmitShaped(a, b3, Load(b3.regs, temp));
  }

  // ----- silent statements -----

  lemma {:induction false} SilentSteps(steps: seq<Step>, slots: Slots, b: Builder)
    requires !HasStep(steps)
    ensures GenSteps(steps, slots, b) == b
    decreases steps
  {
    if steps != [] {
      forall k | 0 <= k < |steps[1..]| ensures !steps[1..][k].Step? { assert steps[1..][k] == steps[k + 1]; }
      SilentSteps(steps[1..], slots, b);
    }
  }

  lemma {:induction false} SilentStmt(s: Stmt, x: Context, b: Builder)
    requires !Emits(s, x.steps)
    ensures GenStmt(s, x, b) == b
    decreases s
  {
    if s.Nested? {
      SilentBlock(s.body, x, b);
    }
  }

  lemma {:induction false} SilentBlock(ss: seq<Stmt>, x: Context, b: Builder)
    requires !AnyEmits(ss, x.steps)
    ensures GenBlock(ss, x, b) == b
    decreases ss
  {
    if ss != [] {
      SilentStmt(ss[0], x, b);
      if |ss| == 1 {
        SilentSteps(x.steps, x.slots, b);
      } else {
        SilentBlock(ss[1..], x, b);
      }
    }
  }

  // ----- statements without dead code -----

  /** The context and the jumps of the statements fit. */
  ghost predicate InContext(x: Context, inLoop: bool)
  {
    inLoop ==> x.brk.Some? && x.cont.Some?
  }

  lemma {:induction false} ShapeStore(d: DeclId, e: Expr, slots: Slots, b: Builder)
    requires Open(b)
    ensures var b' := GenStore(d, e, slots, b); Shaped(b, b') && Open(b')
  {
    var (o, b1) := GenExpr(e, slots, b);
    ShapeExpr(e, slots, b);
    EmitShaped(b, b1, Store(o, Reg(SlotOf(slots, d))));
  }

  lemma {:induction false} ShapeSteps(steps: seq<Step>, slots: Slots, b: Builder)
    requires Open(b)
    ensures var b' := GenSteps(steps, slots, b); Shaped(b, b') && Open(b')
    decreases steps
  {
    if steps != [] {
      var b1 := GenStep(steps[0], slots, b);
      if steps[0].Step? {
        ShapeStore(steps[0].decl, steps[0].value, slots, b);
        GrowStore(steps[0].decl, steps[0].value, slots, b);
      }
      ShapeSteps(steps[1..], slots, b1);
      GrowSteps(steps[1..], slots, b1);
      ShapedTrans(b, b1, GenSteps(steps[1..], slots, b1));
    }
  }

  lemma {:induction false} ShapeTerminator(s: Stmt, x: Context, inLoop: bool, p: DeclId -> bool, b: Builder)
    requires s.IsTerminator() && Open(b) && StmtOk(s, p, inLoop) && InContext(x, inLoop)
    ensures var b' := GenStmt(s, x, b); Shaped(b, b') && Terminated(b')
  {
    match s
    case Break => EmitShaped(b, b, Br(x.brk.value));
    case Continue => EmitShaped(b, b, Br(x.cont.value));
    case Return(None) => EmitShaped(b, b, Ret(None));
    case Return(Some(e)) =>
      var (o, b1) := GenExpr(e, x.slots, b);
      ShapeExpr(e, x.slots, b);
      EmitShaped(b, b1, Ret(Some(o)));
  }

  lemma {:induction false} ShapeStmt(s: Stmt, x: Context, inLoop: bool, p: DeclId -> bool, b: Builder)
    requires Open(b) && StmtOk(s, p, inLoop) && InContext(x, inLoop) && NoDeadCode(s, x.steps)
    ensures var b' := GenStmt(s, x, b); Shaped(b, b') && Terminated(b') == Seals(s)
    decreases s, 2
  {
    hide Shaped, Finished, Clean, GenStore, GenExpr, GenBlock, Branches, Loop, IfStart, WhileEntry;
    match s
    case Declare(d, e) => ShapeStore(d, e, x.slots, b);
    case Assign(d, e) => ShapeStore(d, e, x.slots, b);
    case Evaluate(e) => ShapeExpr(e, x.slots, b);
    case Nested(body) => ShapeBlock(body, x, inLoop, p, b);
    case If(_, _, _) => ShapeIf(s, x, inLoop, p, b);
    case While(_, _, _) =>
      GrowWhileEntry(b);
      ShapeWhileEntry(b);
      EntersHead(b);
      ShapeLoop(s, x, p, b, WhileEntry(b));
    case ErrorBlock(_) => ShapedItself(b);
    case _ => ShapeTerminator(s, x, inLoop, p, b);
  }

  lemma {:induction false} ShapeBlock(ss: seq<Stmt>, x: Context, inLoop: bool, p: DeclId -> bool, b: Builder)
    requires Open(b) && BlockOk(ss, p, inLoop) && InContext(x, inLoop) && NoDeadCodeIn(ss, x.steps)
    ensures var b' := GenBlock(ss, x, b); Shaped(b, b') && Terminated(b') == SomeSeals(ss)
    decreases ss, 1
  {
    if ss == [] {
    } else if ss[0].IsTerminator() {
      var b1 := GenSteps(x.steps, x.slots, b);
      ShapeSteps(x.steps, x.slots, b);
      GrowSteps(x.steps, x.slots, b);
      ShapeTerminator(ss[0], x, inLoop, p, b1);
      GrowStmt(ss[0], x, b1);
      ShapedTrans(b, b1, GenStmt(ss[0], x, b1));
    } else {
      ShapeSequence(ss, x, inLoop, p, b);
    }
  }

  lemma {:induction false} ShapeSequence(ss: seq<Stmt>, x: Context, inLoop: bool, p: DeclId -> bool, b: Builder)
    requires ss != [] && !ss[0].IsTerminator()
    requires Open(b) && BlockOk(ss, p, inLoop) && InContext(x, inLoop) && NoDeadCodeIn(ss, x.steps)
    ensures var b' := GenBlock(ss, x, b); Shaped(b, b') && Terminated(b') == SomeSeals(ss)
    decreases ss, 0
  {
    var b1 := GenStmt(ss[0], x, b);
    ShapeStmt(ss[0], x, inLoop, p, b);
    GrowStmt(ss[0], x, b);
    if |ss| == 1 {
      if Seals(ss[0]) {
        SilentSteps(x.steps, x.slots, b1);
      } else {
        ShapeSteps(x.steps, x.slots, b1);
        GrowSteps(x.steps, x.slots, b1);
        ShapedTrans(b, b1, GenSteps(x.steps, x.slots, b1));
        assert !SomeSeals(ss[1..]);
      }
    } else if Seals(ss[0]) {
      SilentBlock(ss[1..], x, b1);
    } else {
      ShapeBlock(ss[1..], x, inLoop, p, b1);
      GrowBlock(ss[1..], x, b1);
      ShapedTrans(b, b1, GenBlock(ss[1..], x, b1));
    }
  }

  /** A block of statements in a block of its own leaves nothing unfinished. */
  lemma {:induction false} ShapeArm(ss: seq<Stmt>, x: Context, inLoop: bool, p: DeclId -> bool, blk: nat, next: nat,
                                    b: Builder)
    requires blk < |b.blocks| && b.blocks[blk] == []
    requires BlockOk(ss, p, inLoop) && InContext(x, inLoop) && NoDeadCodeIn(ss, x.steps)
    ensures Finished(At(b, blk), GenArm(ss, x, blk, next, b), {})
    decreases ss, 2
  {
    var b1 := GenBlock(ss, x, At(b, blk));
    ShapeBlock(ss, x, inLoop, p, At(b, blk));
    if Terminated(b1) {
      assert ClosedAt(b1, b1.cur);
    } else {
      EmitShaped(At(b, blk), b1, Br(next));
    }
  }

  lemma {:induction false} ShapeIf(s: Stmt, x: Context, inLoop: bool, p: DeclId -> bool, b: Builder)
    requires s.If? && Open(b) && StmtOk(s, p, inLoop) && InContext(x, inLoop) && NoDeadCode(s, x.steps)
    ensures var b' := GenStmt(s, x, b); Shaped(b, b') && !Terminated(b')
    decreases s, 1
  {
    ShapeIfStart(s.cond, x.slots, b);
    GrowIfStart(s.cond, x.slots, b);
    var k := |IfStart(s.cond, x.slots, b).blocks|;
    ShapeBranches(s, x, inLoop, p, b, IfStart(s.cond, x.slots, b), {k - 3, k - 2, k - 1});
  }

  lemma {:induction false} ShapeIfStart(c: Expr, slots: Slots, b: Builder)
    requires Open(b)
    ensures var b1 := IfStart(c, slots, b);
            var k := |b1.blocks|;
            k >= |b.blocks| + 3 && Finished(b, b1, {k - 3, k - 2, k - 1})
  {
    hide LogicalResult, LogicalStart, LogicalTest, Open, Select, Shaped, SlotOf;
    var (o, b1) := GenExpr(c, slots, b);
    var i := Compute(b1.regs, IcmpNe, 1, o, Const(0));
    ShapeExpr(c, slots, b);
    EmitShaped(b, b1, i);
    IfStartFinishes(b, EmitValue(b1, i), CondBr(Reg(b1.regs), |b1.blocks|, |b1.blocks| + 1), IfStart(c, slots, b));
  }

  lemma IfStartFinishes(a: Builder, b: Builder, j: Instr, c: Builder)
    requires |a.blocks| <= |b.blocks| && Shaped(a, b) && Open(b) && j.IsTerminator()
    requires c == Emit(Create(Create(Create(b, true), false), false), j)
    ensures var k := |c.blocks|; k == |b.blocks| + 3 && Finished(a, c, {k - 3, k - 2, k - 1})
  {
    BranchFinishes(a, b, j);
  }

  lemma BranchFinishes(a: Builder, b: Builder, j: Instr)
    requires |a.blocks| <= |b.blocks| && Shaped(a, b) && Open(b) && j.IsTerminator()
    ensures var k := |b.blocks|; Finished(a, Emit(Create(Create(Create(b, true), false), false), j), {k, k + 1, k + 2})
  {
    var k := |b.blocks|;
    var c := Emit(Create(Create(Create(b, true), false), false), j);
    EmitShaped(a, b, j);
    var d := Emit(b, j);
    assert c.blocks[..k] == d.blocks;
    assert a.cur !in {k, k + 1, k + 2} ==> ClosedAt(c, a.cur) by { assert ClosedAt(d, a.cur); }
    forall i | |a.blocks| <= i < |c.blocks| && i !in {k, k + 1, k + 2} ensures ClosedAt(c, i) {
      assert ClosedAt(d, i);
    }
  }

  lemma {:induction false} ShapeBranches(s: Stmt, x: Context, inLoop: bool, p: DeclId -> bool, a: Builder, b: Builder,
                                         w: set<int>)
    requires s.If? && StmtOk(s, p, inLoop) && InContext(x, inLoop) && NoDeadCode(s, x.steps)
    requires |b.blocks| >= |a.blocks| + 3
    requires var k := |b.blocks|;
             && b.blocks[k - 3] == b.blocks[k - 2] == b.blocks[k - 1] == []
             && w == {k - 3, k - 2, k - 1} && Finished(a, b, w)
    ensures Shaped(a, Branches(s, x, b)) && !Terminated(Branches(s, x, b))
    decreases s, 0
  {
    var done := |b.blocks| - 1;
    var a1 := GenArm(s.thn, x, done - 2, done, b);
    ShapeArm(s.thn, x, inLoop, p, done - 2, done, b);
    GrowArm(s.thn, x, done - 2, done, b);
    FinishOne(a, b, a1, w, done - 2);
    LaterBlocksKept(At(b, done - 2), a1, done - 1);
    ShapeElse(s.els, x, inLoop, p, done, a, a1, w - {done - 2});
  }

  lemma {:induction false} ShapeElse(ss: seq<Stmt>, x: Context, inLoop: bool, p: DeclId -> bool, done: nat, a: Builder,
                                     a1: Builder, w: set<int>)
    requires |a.blocks| < done < |a1.blocks| && a1.blocks[done - 1] == a1.blocks[done] == []
    requires BlockOk(ss, p, inLoop) && InContext(x, inLoop) && NoDeadCodeIn(ss, x.steps)
    requires w == {done - 1, done} && Finished(a, a1, w)
    ensures var b' := At(Insert(GenArm(ss, x, done - 1, done, Insert(a1, done - 1)), done), done);
            Shaped(a, b') && !Terminated(b')
    decreases ss, 3
  {
    var b2 := Insert(a1, done - 1);
    var a2 := GenArm(ss, x, done - 1, done, b2);
    FinishedInserted(a, a1, done - 1, w);
    ShapeArm(ss, x, inLoop, p, done - 1, done, b2);
    GrowArm(ss, x, done - 1, done, b2);
    FinishOne(a, b2, a2, w, done - 1);
    LaterBlocksKept(At(b2, done - 1), a2, done);
    assert w - {done - 1} == {done};
    FinishedInserted(a, a2, done, {done});
    FinishedElsewhere(a, Insert(a2, done), done, {done});
  }

  lemma FinishedInserted(a: Builder, b: Builder, blk: nat, w: set<int>)
    requires |a.blocks| <= |b.blocks|
    ensures Finished(a, b, w) <==> Finished(a, Insert(b, blk), w)
  {
    forall i | 0 <= i < |b.blocks| ensures ClosedAt(b, i) == ClosedAt(Insert(b, blk), i) {}
  }

  lemma {:induction false} ShapeLoop(s: Stmt, x: Context, p: DeclId -> bool, a: Builder, e: Builder)
    requires s.While? && StmtOk(s, p, true) && NoDeadCode(s, x.steps)
    requires var k := |a.blocks|;
             && e.cur == k && k + 2 < |e.blocks| && e.blocks[k] == e.blocks[k + 1] == e.blocks[k + 2] == []
             && Finished(a, e, {k, k + 1, k + 2})
    ensures var b' := Loop(s, x, |a.blocks|, e); Shaped(a, b') && !Terminated(b')
    decreases s, 0
  {
    hide GenArm, GenExpr;
    var k := |a.blocks|;
    var h := LoopTest(s.cond, x.slots, k, e);
    ShapeLoopTest(s.cond, x.slots, k, e);
    GrowLoopTest(s.cond, x.slots, k, e);
    assert At(e, k) == e;
    FinishOne(a, e, h, {k, k + 1, k + 2}, k);
    assert {k, k + 1, k + 2} - {k} == {k + 1, k + 2};
    LaterBlocksKept(e, h, k + 1);
    ShapeRounds(s.body, BodyContext(x, s.prologue, k), p, a, h, {k + 1, k + 2});
  }

  lemma ShapeWhileEntry(b: Builder)
    requires Open(b)
    ensures var k := |b.blocks|; Finished(b, WhileEntry(b), {k, k + 1, k + 2})
  {
    hide WhileEntry, Emit, Shaped, Closed;
    var k := |b.blocks|;
    ShapedItself(b);
    EmitShaped(b, b, Br(k));
    EntryBlocks(b);
    assert ClosedAt(Emit(b, Br(k)), b.cur);
    assert ClosedAt(WhileEntry(b), b.cur);
  }

  lemma EntersHead(b: Builder)
    ensures WhileEntry(b).cur == |b.blocks|
  {}

  lemma EntryBlocks(b: Builder)
    ensures WhileEntry(b).blocks[b.cur] == Emit(b, Br(|b.blocks|)).blocks[b.cur]
  {}

  lemma {:induction false} ShapeLoopTest(c: Expr, slots: Slots, head: nat, e: Builder)
    requires e.cur == head && e.blocks[head] == []
    ensures Finished(e, LoopTest(c, slots, head, e), {})
  {
    hide GenExpr, Shaped, Finished, EmitValue, Emit;
    var (o, b1) := GenExpr(c, slots, e);
    var i := Compute(b1.regs, IcmpNe, 1, o, Const(0));
    ShapeExpr(c, slots, e);
    EmitShaped(e, b1, i);
    EmitShaped(e, EmitValue(b1, i), CondBr(Reg(b1.regs), head + 1, head + 2));
  }

  lemma {:induction false} ShapeRounds(body: seq<Stmt>, x: Context, p: DeclId -> bool, a: Builder, h: Builder,
                                       w: set<int>)
    requires var head := |a.blocks|;
             && head + 2 < |h.blocks| && h.blocks[head + 1] == h.blocks[head + 2] == []
             && w == {head + 1, head + 2} && Finished(a, h, w)
    requires BlockOk(body, p, true) && InContext(x, true) && NoDeadCodeIn(body, x.steps)
    ensures var head := |a.blocks|; var b' := At(GenArm(body, x, head + 1, head, h), head + 2);
            Shaped(a, b') && !Terminated(b')
    decreases body, 3
  {
    var head := |a.blocks|;
    var c := GenArm(body, x, head + 1, head, h);
    ShapeArm(body, x, true, p, head + 1, head, h);
    GrowArm(body, x, head + 1, head, h);
    FinishOne(a, h, c, w, head + 1);
    LaterBlocksKept(At(h, head + 1), c, head + 2);
    assert w - {head + 1} == {head + 2};
    FinishedElsewhere(a, c, head + 2, {head + 2});
  }
}
