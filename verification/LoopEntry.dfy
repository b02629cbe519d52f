// Where code generation asserts that a loop is entered from a block without a terminator:
// which bodies pass.
module LoopEntry {
  import opened Words
  import opened Tree
  import opened Ir
  import opened Lowering
  import opened Growth
  import opened SimulateExpr
  import opened BlockShape

  // ----- the assertion -----

  /** Generating the statement meets every loop with an insert block that has no terminator. */
  predicate Passes(s: Stmt, x: Context, b: Builder)
    decreases s, 0
  {
    match s
    case Nested(body) => AllPass(body, x, b)
    case If(c, t, e) =>
      var b1 := IfStart(c, x.slots, b);
      var done := |b1.blocks| - 1;
      && AllPass(t, x, At(b1, done - 2))
      && AllPass(e, x, At(Insert(GenArm(t, x, done - 2, done, b1), done - 1), done - 1))
    case While(c, body, step) =>
      var head := |b.blocks|;
      && !Terminated(b)
      && AllPass(body, BodyContext(x, step, head), At(LoopTest(c, x.slots, head, WhileEntry(b)), head + 1))
    case _ => true
  }

  predicate AllPass(ss: seq<Stmt>, x: Context, b: Builder)
    decreases ss, 0
  {
    ss == [] || ss[0].IsTerminator() || (Passes(ss[0], x, b) && AllPass(ss[1..], x, GenStmt(ss[0], x, b)))
  }

  // ----- on the tree alone -----

  /** Whether the insert block ends in a terminator after the statement, given whether it did
      before. */
  predicate SealedAfter(s: Stmt, steps: seq<Step>, sealed: bool)
  {
    match s
    case Evaluate(e) => sealed && (e.Literal? || e.Argument?)
    case Nested(body) => SealedAfterAll(body, steps, sealed)
    case ErrorBlock(_) => sealed
    case _ => s.IsTerminator()
  }

  predicate SealedAfterAll(ss: seq<Stmt>, steps: seq<Step>, sealed: bool)
  {
    if ss == [] then sealed
    else if ss[0].IsTerminator() then true
    else if |ss| == 1 then SealedAfter(ss[0], steps, sealed) && !HasStep(steps)
    else SealedAfterAll(ss[1..], steps, SealedAfter(ss[0], steps, sealed))
  }

  /** No loop stands directly behind a bare block that ended in a terminator. */
  predicate LoopsOpen(s: Stmt, steps: seq<Step>, sealed: bool)
  {
    match s
    case Nested(body) => AllLoopsOpen(body, steps, sealed)
    case If(_, t, e) => AllLoopsOpen(t, steps, false) && AllLoopsOpen(e, steps, false)
    case While(_, body, step) => !sealed && AllLoopsOpen(body, steps + [step], false)
    case _ => true
  }

  predicate AllLoopsOpen(ss: seq<Stmt>, steps: seq<Step>, sealed: bool)
  {
    ss == [] || ss[0].IsTerminator() ||
    (LoopsOpen(ss[0], steps, sealed) && AllLoopsOpen(ss[1..], steps, SealedAfter(ss[0], steps, sealed)))
  }

  // ----- the two agree -----

  lemma ExprSeals(e: Expr, slots: Slots, b: Builder)
    ensures Terminated(GenExpr(e, slots, b).1) == (Terminated(b) && (e.Literal? || e.Argument?))
  {}

  lemma {:induction false} StepsSeal(steps: seq<Step>, slots: Slots, b: Builder)
    ensures Terminated(GenSteps(steps, slots, b)) == (Terminated(b) && !HasStep(steps))
    decreases steps
  {
    if steps != [] {
      StepsSeal(steps[1..], slots, GenStep(steps[0], slots, b));
      FirstStep(steps);
    }
  }

  lemma FirstStep(steps: seq<Step>)
    requires steps != []
    ensures HasStep(steps) <==> steps[0].Step? || HasStep(steps[1..])
  {
    if k :| 0 < k < |steps| && steps[k].Step? {
      assert steps[1..][k - 1].Step?;
    }
  }

  lemma {:induction false} StatementSeals(s: Stmt, x: Context, inLoop: bool, p: DeclId -> bool, b: Builder)
    requires StmtOk(s, p, inLoop) && InContext(x, inLoop)
    ensures Terminated(GenStmt(s, x, b)) == SealedAfter(s, x.steps, Terminated(b))
    decreases s, 1
  {
    hide Branches, Loop, IfStart, WhileEntry, GenBlock, GenExpr;
    match s
    case Evaluate(e) => ExprSeals(e, x.slots, b);
    case Nested(body) => BlockSeals(body, x, inLoop, p, b);
    case If(c, t, e) =>
      var b1 := IfStart(c, x.slots, b);
      GrowIfStart(c, x.slots, b);
      ArmsLeaveDone(s, x, b1);
    case While(c, body, step) =>
      GrowWhileEntry(b);
      EntersHead(b);
      LoopLeavesDone(s, x, |b.blocks|, WhileEntry(b));
    case _ =>
  }

  lemma {:induction false} BlockSeals(ss: seq<Stmt>, x: Context, inLoop: bool, p: DeclId -> bool, b: Builder)
    requires BlockOk(ss, p, inLoop) && InContext(x, inLoop)
    ensures Terminated(GenBlock(ss, x, b)) == SealedAfterAll(ss, x.steps, Terminated(b))
    decreases ss, 0
  {
    if ss == [] {
    } else if ss[0].IsTerminator() {
      StatementSeals(ss[0], x, inLoop, p, GenSteps(x.steps, x.slots, b));
    } else {
      StatementSeals(ss[0], x, inLoop, p, b);
      var b1 := GenStmt(ss[0], x, b);
      if |ss| == 1 {
        StepsSeal(x.steps, x.slots, b1);
      } else {
        BlockSeals(ss[1..], x, inLoop, p, b1);
      }
    }
  }

  /** The else block is empty when its turn comes, and so is the done block. */
  lemma {:induction false} ArmsLeaveDone(s: Stmt, x: Context, b: Builder)
    requires s.If? && |b.blocks| > 3 && b.cur < |b.blocks| - 3
    requires var k := |b.blocks|; b.blocks[k - 3] == b.blocks[k - 2] == b.blocks[k - 1] == []
    ensures var done := |b.blocks| - 1;
            && GenArm(s.thn, x, done - 2, done, b).blocks[done - 1] == []
            && !Terminated(Branches(s, x, b))
  {
    hide PrefixAt;
    var done := |b.blocks| - 1;
    var b1 := GenArm(s.thn, x, done - 2, done, b);
    GrowArm(s.thn, x, done - 2, done, b);
    LaterBlocksKept(At(b, done - 2), b1, done - 1);
    var b2 := Insert(b1, done - 1);
    GrowArm(s.els, x, done - 1, done, b2);
    LaterBlocksKept(At(b2, done - 1), GenArm(s.els, x, done - 1, done, b2), done);
  }

  lemma {:induction false} LoopLeavesDone(s: Stmt, x: Context, head: nat, b: Builder)
    requires s.While? && head + 2 < |b.blocks| && b.cur == head && b.blocks[head + 1] == b.blocks[head + 2] == []
    ensures LoopTest(s.cond, x.slots, head, b).blocks[head + 1] == [] && !Terminated(Loop(s, x, head, b))
  {
    var h := LoopTest(s.cond, x.slots, head, b);
    GrowLoopTest(s.cond, x.slots, head, b);
    LaterBlocksKept(b, h, head + 1);
    var y := BodyContext(x, s.prologue, head);
    GrowArm(s.body, y, head + 1, head, h);
    LaterBlocksKept(At(h, head + 1), GenArm(s.body, y, head + 1, head, h), head + 2);
  }

  lemma {:induction false} PassesExactly(s: Stmt, x: Context, inLoop: bool, p: DeclId -> bool, b: Builder)
    requires StmtOk(s, p, inLoop) && InContext(x, inLoop)
    ensures Passes(s, x, b) <==> LoopsOpen(s, x.steps, Terminated(b))
    decreases s, 1
  {
    hide IfStart, GenArm, Branches, Loop, LoopTest, WhileEntry, GenStmt, GenBlock;
    match s
    case Nested(body) => AllPassExactly(body, x, inLoop, p, b);
    case If(c, t, e) =>
      var b1 := IfStart(c, x.slots, b);
      var done := |b1.blocks| - 1;
      GrowIfStart(c, x.slots, b);
      ArmsLeaveDone(s, x, b1);
      AllPassExactly(t, x, inLoop, p, At(b1, done - 2));
      AllPassExactly(e, x, inLoop, p, At(Insert(GenArm(t, x, done - 2, done, b1), done - 1), done - 1));
    case While(c, body, step) =>
      var head := |b.blocks|;
      GrowWhileEntry(b);
      LoopLeavesDone(s, x, head, WhileEntry(b));
      var y, tested := BodyContext(x, step, head), LoopTest(c, x.slots, head, WhileEntry(b));
      AllPassExactly(body, y, true, p, At(tested, head + 1));
    case _ =>
  }

  lemma {:induction false} AllPassExactly(ss: seq<Stmt>, x: Context, inLoop: bool, p: DeclId -> bool, b: Builder)
    requires BlockOk(ss, p, inLoop) && InContext(x, inLoop)
    ensures AllPass(ss, x, b) <==> AllLoopsOpen(ss, x.steps, Terminated(b))
    decreases ss, 0
  {
    if ss != [] && !ss[0].IsTerminator() {
      PassesExactly(ss[0], x, inLoop, p, b);
      StatementSeals(ss[0], x, inLoop, p, b);
      AllPassExactly(ss[1..], x, inLoop, p, GenStmt(ss[0], x, b));
    }
  }

  // ----- procedures -----

  lemma {:induction false} AllocsStayOpen(ds: seq<DeclId>, slots: Slots, b: Builder)
    requires !Terminated(b)
    ensures !Terminated(AllocLocals(ds, slots, b).1)
    decreases ds
  {
    if ds != [] {
      AllocsStayOpen(ds[1..], slots[ds[0] := b.regs], EmitValue(b, Alloca(b.regs)));
    }
  }

  /** Code generation gets through a body exactly if no loop stands directly behind a bare
      block that ended in a terminator. */
  lemma {:induction false} GetsThroughExactly(body: seq<Stmt>)
    requires BodyOk(body)
    ensures var (slots, b) := AllocLocals(Locals(body), map[], ENTRY_BUILDER);
            AllPass(body, Context(slots, [], None, None), b) <==> AllLoopsOpen(body, [], false)
  {
    var (slots, b) := AllocLocals(Locals(body), map[], ENTRY_BUILDER);
    AllocsStayOpen(Locals(body), map[], ENTRY_BUILDER);
    AllPassExactly(body, Context(slots, [], None, None), false, Declared(body), b);
  }

  /** Without dead code there is no such loop. */
  lemma {:induction false} NoDeadCodeGetsThrough(ss: seq<Stmt>, steps: seq<Step>)
    requires NoDeadCodeIn(ss, steps)
    ensures AllLoopsOpen(ss, steps, false) && (SealedAfterAll(ss, steps, false) ==> SomeSeals(ss))
    decreases ss, 1
  {
    if ss != [] && !ss[0].IsTerminator() {
      StatementGetsThrough(ss[0], steps);
      NoDeadCodeGetsThrough(ss[1..], steps);
      if Seals(ss[0]) {
        if |ss| > 1 {
          SilentGetsThrough(ss[1..], steps, SealedAfter(ss[0], steps, false));
        }
      } else {
        assert !SealedAfter(ss[0], steps, false);
      }
    }
  }

  lemma {:induction false} StatementGetsThrough(s: Stmt, steps: seq<Step>)
    requires NoDeadCode(s, steps)
    ensures LoopsOpen(s, steps, false) && (SealedAfter(s, steps, false) ==> Seals(s))
    decreases s, 0
  {
    match s
    case Nested(body) => NoDeadCodeGetsThrough(body, steps);
    case If(_, t, e) =>
      NoDeadCodeGetsThrough(t, steps);
      NoDeadCodeGetsThrough(e, steps);
    case While(_, body, step) => NoDeadCodeGetsThrough(body, steps + [step]);
    case _ =>
  }

  lemma {:induction false} SilentGetsThrough(ss: seq<Stmt>, steps: seq<Step>, sealed: bool)
    requires !AnyEmits(ss, steps)
    ensures AllLoopsOpen(ss, steps, sealed)
    decreases ss
  {
    if ss != [] {
      if ss[0].Nested? {
        SilentGetsThrough(ss[0].body, steps, sealed);
      }
      if |ss| > 1 {
        SilentGetsThrough(ss[1..], steps, SealedAfter(ss[0], steps, sealed));
      } else {
        assert AllLoopsOpen(ss[1..], steps, SealedAfter(ss[0], steps, sealed));
      }
    }
  }

  /** `{ return } while false {}` and a return: accepted, and the assertion fails. */
  lemma {:induction false} LoopBehindReturnStops(body: seq<Stmt>)
    requires body == [Nested([Return(None)]), While(Literal(0), [], NoStep), Return(None)]
    ensures BodyOk(body)
    ensures var (slots, b) := AllocLocals(Locals(body), map[], ENTRY_BUILDER);
            !AllPass(body, Context(slots, [], None, None), b)
  {
    ReturnSealsLoop();
    GetsThroughExactly(body);
  }

  lemma {:induction false} ReturnSealsLoop()
    ensures var body := [Nested([Return(None)]), While(Literal(0), [], NoStep), Return(None)];
            BodyOk(body) && !AllLoopsOpen(body, [], false)
  {
    var loop := While(Literal(0), [], NoStep);
    var body := [Nested([Return(None)]), loop, Return(None)];
    assert body[1..] == [loop, Return(None)] && body[1..][1..] == [Return(None)];
    assert [Return(None)][1..] == [];
    assert BlockOk([], Declared(body), true) && BlockOk([Return(None)], Declared(body), false);
  }
}
