// The code generator itself: an object that moves its insert point, keeps the stack of
// loop prologues, and saves and restores the targets of break and continue. Each method
// is proved to build what Lowering says.
module Compiler {
  import opened Words
  import opened Tree
  import opened Ir
  import opened Lowering

  /** Allocating two lists of locals one after the other. */
  lemma {:induction false} AllocTwo(xs: seq<DeclId>, ys: seq<DeclId>, slots: Slots, b: Builder)
    ensures var (s1, b1) := AllocLocals(xs, slots, b); AllocLocals(xs + ys, slots, b) == AllocLocals(ys, s1, b1)
    decreases xs
  {
    if xs == [] {
      assert xs + ys == ys;
    } else {
      assert (xs + ys)[1..] == xs[1..] + ys;
      AllocTwo(xs[1..], ys, slots[xs[0] := b.regs], EmitValue(b, Alloca(b.regs)));
    }
  }

  lemma AllocOne(d: DeclId, slots: Slots, b: Builder)
    ensures AllocLocals([d], slots, b) == (slots[d := b.regs], EmitValue(b, Alloca(b.regs)))
  {
    assert [d][1..] == [];
  }

  lemma AllocNone(slots: Slots, b: Builder)
    ensures AllocLocals([], slots, b) == (slots, b)
  {}

  lemma LocalsOfList(ss: seq<Stmt>)
    ensures Locals(ss) == if ss == [] then [] else LocalsOf(ss[0]) + Locals(ss[1..])
  {}

  /** The operands built so far, and then those of the remaining arguments. */
  function Behind(os: seq<Operand>, es: seq<Expr>, slots: Slots, b: Builder): (seq<Operand>, Builder)
  {
    (os + GenAll(es, slots, b).0, GenAll(es, slots, b).1)
  }

  lemma NoneBuilt(es: seq<Expr>, slots: Slots, b: Builder)
    ensures Behind([], es[0..], slots, b) == GenAll(es, slots, b)
  {
    assert es[0..] == es;
    assert [] + GenAll(es, slots, b).0 == GenAll(es, slots, b).0;
  }

  lemma OneMoreBuilt(os: seq<Operand>, es: seq<Expr>, i: nat, slots: Slots, b: Builder)
    requires i < |es|
    ensures var (o, b1) := GenExpr(es[i], slots, b);
            Behind(os, es[i..], slots, b) == Behind(os + [o], es[i + 1..], slots, b1)
  {
    hide GenExpr;
    assert es[i..][0] == es[i] && es[i..][1..] == es[i + 1..];
    var (o, b1) := GenExpr(es[i], slots, b);
    var rest := GenAll(es[i + 1..], slots, b1).0;
    assert os + ([o] + rest) == os + [o] + rest;
  }

  lemma AllBuilt(os: seq<Operand>, es: seq<Expr>, slots: Slots, b: Builder)
    requires es == []
    ensures Behind(os, es, slots, b) == (os, b)
  {
    assert os + [] == os;
  }

  class IrCompiler {
    // the function being built and the insert point of the IR builder
    var blocks: Code
    var layout: seq<nat>
    var insertBlock: nat
    var values: nat
    // what the tree nodes record: the alloca of each declaration
    var namedValues: Slots
    // the state of the walk
    var currentPrologue: seq<Step>
    var breakTarget: Option<nat>
    var continueTarget: Option<nat>

    predicate Valid()
      reads this
    {
      insertBlock < |blocks|
    }

    function State(): Builder
      requires Valid()
      reads this
    {
      Builder(blocks, layout, insertBlock, values)
    }

    function Walk(): Context
      reads this
    {
      Context(namedValues, currentPrologue, breakTarget, continueTarget)
    }

    /** A function with an empty entry block. */
    constructor ()
      ensures Valid() && State() == ENTRY_BUILDER && Walk() == Context(map[], [], None, None)
    {
      blocks, layout, insertBlock, values := [[]], [0], 0, 0;
      namedValues, currentPrologue, breakTarget, continueTarget := map[], [], None, None;
    }

    // ----- the IR builder -----

    method Append(i: Instr)
      requires Valid()
      modifies this`blocks
      ensures Valid() && State() == Emit(old(State()), i)
    {
      blocks := blocks[insertBlock := blocks[insertBlock] + [i]];
    }

    method AppendValue(i: Instr) returns (value: Operand)
      requires Valid()
      modifies this`blocks, this`values
      ensures Valid() && State() == EmitValue(old(State()), i) && value == Reg(old(values))
    {
      value := Reg(values);
      blocks, values := blocks[insertBlock := blocks[insertBlock] + [i]], values + 1;
    }

    method CreateBlock(insert: bool) returns (blk: nat)
      requires Valid()
      modifies this`blocks, this`layout
      ensures Valid() && State() == Create(old(State()), insert) && blk == |old(blocks)|
    {
      blk := |blocks|;
      blocks := blocks + [[]];
      if insert {
        layout := layout + [blk];
      }
    }

    method InsertAtEnd(blk: nat)
      requires Valid()
      modifies this`layout
      ensures Valid() && State() == Insert(old(State()), blk)
    {
      layout := layout + [blk];
    }

    method SetInsertPoint(blk: nat)
      requires blk < |blocks|
      modifies this`insertBlock
      ensures Valid() && (old(Valid()) ==> State() == At(old(State()), blk))
    {
      insertBlock := blk;
    }

    /** Whether the insert block already ends in a terminator. */
    method HasTerminator() returns (r: bool)
      requires Valid()
      ensures r == Terminated(State())
    {
      var ii := blocks[insertBlock];
      r := |ii| > 0 && ii[|ii| - 1].IsTerminator();
    }

    // ----- expressions -----

    method GenerateExpr(e: Expr) returns (value: Operand)
      requires Valid()
      modifies this`blocks, this`layout, this`insertBlock, this`values
      ensures Valid() && (value, State()) == GenExpr(e, namedValues, old(State()))
      decreases e, 2
    {
      match e
      case Literal(v) => value := Const(v);
      case Argument(i) => value := Param(i);
      case Local(d) => value := AppendValue(Load(values, Reg(SlotOf(namedValues, d))));
      case Binary(op, ty, l, r) =>
        var x := GenerateExpr(l);
        var y := GenerateExpr(r);
        value := AppendValue(Compute(values, Select(op, ty), ty.Width(), x, y));
      case Logical(conj, l, r) => value := GenerateLogical(e, conj, l, r);
      case Call(callee, es) =>
        var arguments := GenerateArguments(es);
        value := AppendValue(Invoke(values, callee, arguments));
      case Cast(from, to, x) =>
        var o := GenerateExpr(x);
        value := AppendValue(IntCast(values, from.Width(), to.Width(), o));
    }

    method GenerateArguments(es: seq<Expr>) returns (arguments: seq<Operand>)
      requires Valid()
      modifies this`blocks, this`layout, this`insertBlock, this`values
      ensures Valid() && (arguments, State()) == GenAll(es, namedValues, old(State()))
      decreases es
    {
      hide GenAll, GenExpr;
      arguments := [];
      var i := 0;
      NoneBuilt(es, namedValues, State());
      while i < |es|
        invariant 0 <= i <= |es| && Valid()
        invariant GenAll(es, namedValues, old(State())) == Behind(arguments, es[i..], namedValues, State())
      {
        OneMoreBuilt(arguments, es, i, namedValues, State());
        var o := GenerateExpr(es[i]);
        arguments := arguments + [o];
        i := i + 1;
      }
      AllBuilt(arguments, es[i..], namedValues, State());
    }

    method TestOperand(conj: bool, e: Expr, target: nat, end: nat)
      requires Valid() && target < |blocks| && end >= 2
      modifies this`blocks, this`layout, this`insertBlock, this`values
      ensures Valid() && State() == GenTested(conj, e, target, end - 2, namedValues, old(State()))
      decreases e, 3
    {
      var x := GenerateExpr(e);
      var test := AppendValue(Compute(values, IcmpEq, 1, x, Const(BoolWord(conj))));
      Append(CondBr(test, target, end));
      SetInsertPoint(target);
    }

    method GenerateLogical(ghost e: Expr, conj: bool, l: Expr, r: Expr) returns (value: Operand)
      requires Valid() && e == Logical(conj, l, r)
      modifies this`blocks, this`layout, this`insertBlock, this`values
      ensures Valid() && (value, State()) == GenExpr(e, namedValues, old(State()))
      decreases e, 1
    {
      var result, lhsTrue, rhsTrue, end := StartLogical(conj);
      value := GenerateOperands(e, conj, l, r, result, lhsTrue, rhsTrue, end);
    }

    method StartLogical(conj: bool) returns (result: Operand, lhsTrue: nat, rhsTrue: nat, end: nat)
      requires Valid()
      modifies this`blocks, this`layout, this`values
      ensures Valid() && State() == LogicalStart(conj, old(State())) && result == Reg(old(values))
      ensures lhsTrue == |old(blocks)| && rhsTrue == lhsTrue + 1 && end == lhsTrue + 2
    {
      result := AppendValue(Alloca(values));
      Append(Store(Const(BoolWord(!conj)), result));
      lhsTrue := CreateBlock(true);
      rhsTrue := CreateBlock(true);
      end := CreateBlock(true);
    }

    method GenerateOperands(ghost e: Expr, conj: bool, l: Expr, r: Expr, result: Operand, lhsTrue: nat, rhsTrue: nat,
                            end: nat)
      returns (value: Operand)
      requires Valid() && e == Logical(conj, l, r) && rhsTrue == lhsTrue + 1 && end == lhsTrue + 2 < |blocks| &&
               result.Reg?
      modifies this`blocks, this`layout, this`insertBlock, this`values
      ensures Valid() && (value, State()) == Diamond(e, result.id, lhsTrue, namedValues, old(State()))
      decreases e, 0
    {
      hide GenExpr, LogicalResult;
      TestOperand(conj, l, lhsTrue, end);
      TestOperand(conj, r, rhsTrue, end);
      value := FinishLogical(conj, result, end);
    }

    method FinishLogical(conj: bool, result: Operand, end: nat) returns (value: Operand)
      requires Valid() && 2 <= end < |blocks|
      modifies this`blocks, this`insertBlock, this`values
      ensures Valid() && (value, State()) == LogicalResult(conj, result, end - 2, old(State()))
    {
      Append(Store(Const(BoolWord(conj)), result));
      Append(Br(end));
      SetInsertPoint(end);
      value := AppendValue(Load(values, result));
    }

    // ----- statements -----

    method GenerateStore(d: DeclId, e: Expr)
      requires Valid()
      modifies this`blocks, this`layout, this`insertBlock, this`values
      ensures Valid() && State() == GenStore(d, e, namedValues, old(State()))
    {
      var value := GenerateExpr(e);
      Append(Store(value, Reg(SlotOf(namedValues, d))));
    }

    /** Emits the whole stack of prologues, outermost first. */
    method GeneratePrologues()
      requires Valid()
      modifies this`blocks, this`layout, this`insertBlock, this`values
      ensures Valid() && State() == GenSteps(currentPrologue, namedValues, old(State()))
    {
      var i := 0;
      while i < |currentPrologue|
        invariant 0 <= i <= |currentPrologue| && Valid()
        invariant GenSteps(currentPrologue, namedValues, old(State())) ==
                  GenSteps(currentPrologue[i..], namedValues, State())
      {
        var step := currentPrologue[i];
        assert currentPrologue[i..][0] == step && currentPrologue[i..][1..] == currentPrologue[i + 1..];
        if step.Step? {
          GenerateStore(step.decl, step.value);
        }
        i := i + 1;
      }
    }

    method GenerateStmt(s: Stmt)
      requires Valid() && NoFor(s)
      requires (s.Break? ==> breakTarget.Some?) && (s.Continue? ==> continueTarget.Some?)
      requires JumpsHaveTargets(s, breakTarget.Some? && continueTarget.Some?)
      modifies this
      ensures Valid() && State() == GenStmt(s, old(Walk()), old(State())) && Walk() == old(Walk())
      decreases s, 2
    {
      match s
      case Declare(d, e) => GenerateStore(d, e);
      case Assign(d, e) => GenerateStore(d, e);
      case Evaluate(e) => var _ := GenerateExpr(e);
      case Nested(body) => GenerateBlock(body);
      case ErrorBlock(_) =>
      case If(c, t, e) => GenerateIf(s, c, t, e);
      case While(c, body, step) => GenerateWhile(s, c, body, step);
      case Break => Append(Br(breakTarget.value));
      case Continue => Append(Br(continueTarget.value));
      case Return(result) =>
        match result
        {
          case None => Append(Ret(None));
          case Some(e) =>
            var value := GenerateExpr(e);
            Append(Ret(Some(value)));
        }
    }

    method GenerateBlock(ss: seq<Stmt>)
      requires Valid() && NoForIn(ss) && JumpsHaveTargetsIn(ss, breakTarget.Some? && continueTarget.Some?)
      modifies this
      ensures Valid() && State() == GenBlock(ss, old(Walk()), old(State())) && Walk() == old(Walk())
      decreases ss, 0
    {
      var i := 0;
      while i < |ss|
        invariant 0 <= i <= |ss| && Valid() && Walk() == old(Walk())
        invariant NoForIn(ss[i..]) && JumpsHaveTargetsIn(ss[i..], breakTarget.Some? && continueTarget.Some?)
        invariant GenBlock(ss, old(Walk()), old(State())) == GenBlock(ss[i..], old(Walk()), State())
      {
        var statement := ss[i];
        assert ss[i..][0] == statement && ss[i..][1..] == ss[i + 1..];
        if statement.IsTerminator() {
          GeneratePrologues();
          GenerateStmt(statement);
          return;
        }
        GenerateStmt(statement);
        if i + 1 == |ss| {
          GeneratePrologues();
        }
        i := i + 1;
      }
    }

    /** A block of statements from the start of block blk; falling through leads to next. */
    method GenerateArm(ss: seq<Stmt>, blk: nat, next: nat)
      requires Valid() && blk < |blocks| && NoForIn(ss) &&
               JumpsHaveTargetsIn(ss, breakTarget.Some? && continueTarget.Some?)
      modifies this
      ensures Valid() && State() == GenArm(ss, old(Walk()), blk, next, old(State())) && Walk() == old(Walk())
      decreases ss, 1
    {
      SetInsertPoint(blk);
      GenerateBlock(ss);
      var terminated := HasTerminator();
      if !terminated {
        Append(Br(next));
      }
    }

    method GenerateIf(ghost s: Stmt, c: Expr, t: seq<Stmt>, e: seq<Stmt>)
      requires Valid() && s == If(c, t, e) && NoFor(s) && JumpsHaveTargets(s, breakTarget.Some? && continueTarget.Some?)
      modifies this
      ensures Valid() && State() == GenStmt(s, old(Walk()), old(State())) && Walk() == old(Walk())
      decreases s, 1
    {
      var thenBlock, elseBlock, doneBlock := BranchOn(c);
      GenerateArms(s, t, e, thenBlock, elseBlock, doneBlock);
    }

    method GenerateArms(ghost s: Stmt, t: seq<Stmt>, e: seq<Stmt>, thenBlock: nat, elseBlock: nat, doneBlock: nat)
      requires Valid() && s.If? && s.thn == t && s.els == e && NoFor(s)
      requires JumpsHaveTargets(s, breakTarget.Some? && continueTarget.Some?)
      requires |blocks| >= 3 && doneBlock == |blocks| - 1 && elseBlock == doneBlock - 1 && thenBlock == doneBlock - 2
      modifies this
      ensures Valid() && Walk() == old(Walk()) && State() == Branches(s, old(Walk()), old(State()))
      decreases s, 0
    {
      hide GenArm, NoForIn, JumpsHaveTargetsIn;
      GenerateArm(t, thenBlock, doneBlock);
      InsertAtEnd(elseBlock);
      GenerateArm(e, elseBlock, doneBlock);
      InsertAtEnd(doneBlock);
      SetInsertPoint(doneBlock);
    }

    method BranchOn(c: Expr) returns (thenBlock: nat, elseBlock: nat, doneBlock: nat)
      requires Valid()
      modifies this`blocks, this`layout, this`insertBlock, this`values
      ensures Valid() && State() == IfStart(c, namedValues, old(State()))
      ensures doneBlock == |blocks| - 1 && elseBlock == |blocks| - 2 && thenBlock == |blocks| - 3
    {
      hide GenExpr;
      var condition := GenerateExpr(c);
      var test := AppendValue(Compute(values, IcmpNe, 1, condition, Const(0)));
      thenBlock, elseBlock, doneBlock := CreateBranchBlocks();
      Append(CondBr(test, thenBlock, elseBlock));
    }

    /** The blocks of an if; only the first is inserted yet. */
    method CreateBranchBlocks() returns (thenBlock: nat, elseBlock: nat, doneBlock: nat)
      requires Valid()
      modifies this`blocks, this`layout
      ensures Valid() && State() == Create(Create(Create(old(State()), true), false), false)
      ensures thenBlock == |old(blocks)| && elseBlock == thenBlock + 1 && doneBlock == thenBlock + 2 &&
              |blocks| == thenBlock + 3
    {
      thenBlock := CreateBlock(true);
      elseBlock := CreateBlock(false);
      doneBlock := CreateBlock(false);
    }

    method GenerateWhile(ghost s: Stmt, c: Expr, body: seq<Stmt>, step: Step)
      requires Valid() && s == While(c, body, step) && NoFor(s) && JumpsHaveTargets(s, true)
      modifies this
      ensures Valid() && State() == GenStmt(s, old(Walk()), old(State())) && Walk() == old(Walk())
      decreases s, 1
    {
      hide NoFor, JumpsHaveTargets, WhileEntry, Loop;
      var oldSize := |currentPrologue|;
      currentPrologue := currentPrologue + [step];
      var head, bodyBlock, done := OpenLoop();
      var oldBreak, oldContinue := breakTarget, continueTarget;
      breakTarget, continueTarget := Some(done), Some(head);
      GenerateRounds(s, c, body, head, bodyBlock, done,
                     Context(namedValues, old(currentPrologue), oldBreak, oldContinue));
      breakTarget, continueTarget := oldBreak, oldContinue;
      currentPrologue := currentPrologue[..oldSize];
    }

    method GenerateRounds(ghost s: Stmt, c: Expr, body: seq<Stmt>, head: nat, bodyBlock: nat, done: nat,
                          ghost outer: Context)
      requires Valid() && s.While? && s.cond == c && s.body == body && NoFor(s) && JumpsHaveTargets(s, true)
      requires bodyBlock == head + 1 && done == head + 2 < |blocks| && Walk() == BodyContext(outer, s.prologue, head)
      modifies this
      ensures Valid() && Walk() == old(Walk()) && State() == Loop(s, outer, head, old(State()))
      decreases s, 0
    {
      GenerateTest(c, bodyBlock, done);
      GenerateArm(body, bodyBlock, head);
      SetInsertPoint(done);
    }

    method OpenLoop() returns (head: nat, bodyBlock: nat, done: nat)
      requires Valid()
      modifies this`blocks, this`layout, this`insertBlock
      ensures Valid() && State() == WhileEntry(old(State()))
      ensures head == |old(blocks)| && bodyBlock == head + 1 && done == head + 2 && done < |blocks|
    {
      head := CreateBlock(true);
      bodyBlock := CreateBlock(true);
      done := CreateBlock(true);
      Append(Br(head));
      SetInsertPoint(head);
    }

    method GenerateTest(c: Expr, bodyBlock: nat, done: nat)
      requires Valid() && bodyBlock > 0 && done == bodyBlock + 1
      modifies this`blocks, this`layout, this`insertBlock, this`values
      ensures Valid() && State() == LoopTest(c, namedValues, bodyBlock - 1, old(State()))
    {
      var condition := GenerateExpr(c);
      var test := AppendValue(Compute(values, IcmpNe, 1, condition, Const(0)));
      Append(CondBr(test, bodyBlock, done));
    }

    // ----- procedures -----

    method AllocateLocals(ss: seq<Stmt>)
      requires Valid()
      modifies this`blocks, this`values, this`namedValues
      ensures Valid() && (namedValues, State()) == AllocLocals(Locals(ss), old(namedValues), old(State()))
      decreases ss
    {
      hide AllocLocals, Locals;
      LocalsOfList(ss);
      var i := 0;
      while i < |ss|
        invariant 0 <= i <= |ss| && Valid()
        invariant AllocLocals(Locals(ss), old(namedValues), old(State())) ==
                  AllocLocals(Locals(ss[i..]), namedValues, State())
      {
        var statement := ss[i];
        assert ss[i..][0] == statement && ss[i..][1..] == ss[i + 1..];
        LocalsOfList(ss[i..]);
        AllocTwo(LocalsOf(statement), Locals(ss[i + 1..]), namedValues, State());
        match statement
        {
          case Declare(d, _) =>
            ghost var slots, b := namedValues, State();
            AllocOne(d, slots, b);
            namedValues := namedValues[d := values];
            var _ := AppendValue(Alloca(values));
          case Nested(body) => AllocateLocals(body);
          case If(_, t, e) =>
            AllocTwo(Locals(t), Locals(e), namedValues, State());
            AllocateLocals(t);
            AllocateLocals(e);
          case While(_, body, _) => AllocateLocals(body);
          case _ =>
            AllocNone(namedValues, State());
        }
        i := i + 1;
      }
      assert ss[i..] == [];
      AllocNone(namedValues, State());
      LocalsOfList([]);
    }

    /** Compiles a procedure body into this object's function. */
    method GenerateProcedure(body: seq<Stmt>)
      requires Valid() && State() == ENTRY_BUILDER && Walk() == Context(map[], [], None, None)
      requires NoForIn(body) && JumpsHaveTargetsIn(body, false)
      modifies this
      ensures Valid() && State() == GenProcedure(body)
    {
      AllocateLocals(body);
      GenerateBlock(body);
    }
  }

  /** Break and continue occur only where both targets are set. */
  predicate JumpsHaveTargets(s: Stmt, inLoop: bool)
  {
    match s
    case Nested(body) => JumpsHaveTargetsIn(body, inLoop)
    case If(_, t, e) => JumpsHaveTargetsIn(t, inLoop) && JumpsHaveTargetsIn(e, inLoop)
    case While(_, body, _) => JumpsHaveTargetsIn(body, true)
    case Break => inLoop
    case Continue => inLoop
    case _ => true
  }

  predicate JumpsHaveTargetsIn(ss: seq<Stmt>, inLoop: bool)
  {
    ss == [] || (JumpsHaveTargets(ss[0], inLoop) && JumpsHaveTargetsIn(ss[1..], inLoop))
  }

  /** The jumps of an accepted body have targets. */
  lemma {:induction false} AcceptedJumps(ss: seq<Stmt>, p: DeclId -> bool, inLoop: bool)
    requires BlockOk(ss, p, inLoop)
    ensures JumpsHaveTargetsIn(ss, inLoop)
    decreases ss
  {
    if ss != [] {
      match ss[0]
      {
        case Nested(body) => AcceptedJumps(body, p, inLoop);
        case If(_, t, e) => AcceptedJumps(t, p, inLoop); AcceptedJumps(e, p, inLoop);
        case While(_, body, _) => AcceptedJumps(body, p, true);
        case _ =>
      }
      AcceptedJumps(ss[1..], p, inLoop);
    }
  }

  /** Compiling an accepted body makes a new function with the blocks of GenProcedure. */
  method CompileProcedure(body: seq<Stmt>) returns (blocks: Code, layout: seq<nat>)
    requires BodyOk(body) && NoForIn(body)
    ensures blocks == GenProcedure(body).blocks && layout == GenProcedure(body).layout
  {
    AcceptedJumps(body, Declared(body), false);
    var compiler := new IrCompiler();
    compiler.GenerateProcedure(body);
    blocks, layout := compiler.blocks, compiler.layout;
  }
}
