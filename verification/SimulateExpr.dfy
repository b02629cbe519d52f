// Running the code of an expression: it ends at its own end with the expression's value
// in the returned operand and the expression's calls on the trace.
module SimulateExpr {
  import opened Words
  import opened Tree
  import opened Source
  import opened Ir
  import opened Lowering
  import opened Growth

  /** The program counter is where the builder would append. */
  ghost predicate AtEnd(c: Config, b: Builder)
  {
    c.Running? && c.blk == b.cur && c.pc == |b.blocks[b.cur]|
  }

  ghost predicate Holds(c: Config, env: Env, slots: Slots, d: DeclId)
    requires c.Running? && d in slots
  {
    var r := slots[d];
    r in c.regs && c.regs[r] == r && r < |c.mem| && c.mem[r] == Get(env, d)
  }

  /** Every local lives in the cell its slot names, and that cell holds its value. */
  ghost predicate Rel(c: Config, env: Env, slots: Slots)
  {
    c.Running? && forall d :: d in slots ==> Holds(c, env, slots, d)
  }

  ghost predicate SlotsBelow(slots: Slots, k: nat)
  {
    forall d :: d in slots ==> slots[d] < k
  }

  ghost predicate KeepsValue(c: Config, c': Config, r: nat)
    requires c.Running? && c'.Running?
  {
    r in c.regs ==> r in c'.regs && c'.regs[r] == c.regs[r]
  }

  /** Values numbered below k and all existing cells are as before. */
  ghost predicate Preserves(c: Config, c': Config, k: nat)
  {
    && c.Running? && c'.Running?
    && c.mem <= c'.mem
    && forall r: nat :: r < k ==> KeepsValue(c, c', r)
  }

  function InSlots(slots: Slots): DeclId -> bool { d => d in slots }

  lemma PreservesTrans(c: Config, c1: Config, c2: Config, k: nat, k1: nat)
    requires Preserves(c, c1, k) && Preserves(c1, c2, k1) && k <= k1
    ensures Preserves(c, c2, k)
  {
    forall r: nat | r < k ensures KeepsValue(c, c2, r) {
      assert KeepsValue(c, c1, r) && KeepsValue(c1, c2, r);
    }
  }

  lemma PreservesRel(c: Config, c': Config, env: Env, slots: Slots, k: nat)
    requires Preserves(c, c', k) && Rel(c, env, slots) && SlotsBelow(slots, k)
    ensures Rel(c', env, slots)
  {
    forall d | d in slots ensures Holds(c', env, slots, d) {
      assert Holds(c, env, slots, d) && KeepsValue(c, c', slots[d]);
    }
  }

  /** An operand made before value k still has its value. */
  ghost predicate Delivers(o: Operand, v: int, c: Config, f: Frame, k: nat)
  {
    c.Running? && (o.Reg? ==> o.id < k) && Ready(o, c) && ValueOf(o, c, f) == v
  }

  lemma DeliversLater(o: Operand, v: int, c: Config, c': Config, f: Frame, k: nat, k': nat)
    requires Delivers(o, v, c, f, k) && Preserves(c, c', k) && k <= k'
    ensures Delivers(o, v, c', f, k')
  {
    assert o.Reg? ==> KeepsValue(c, c', o.id);
  }

  ghost predicate DeliverAll(os: seq<Operand>, vs: seq<int>, c: Config, f: Frame, k: nat)
  {
    |os| == |vs| && forall i :: 0 <= i < |os| ==> Delivers(os[i], vs[i], c, f, k)
  }

  lemma {:induction false} DeliveredValues(os: seq<Operand>, vs: seq<int>, c: Config, f: Frame, k: nat)
    requires DeliverAll(os, vs, c, f, k) && c.Running?
    ensures (forall i :: 0 <= i < |os| ==> Ready(os[i], c)) && Values(os, c, f) == vs
  {
    forall i | 0 <= i < |os| ensures Ready(os[i], c) {
      assert Delivers(os[i], vs[i], c, f, k);
    }
    if os != [] {
      assert Delivers(os[0], vs[0], c, f, k);
      assert DeliverAll(os[1..], vs[1..], c, f, k) by {
        forall i | 0 <= i < |os[1..]| ensures Delivers(os[1..][i], vs[1..][i], c, f, k) {
          assert Delivers(os[i + 1], vs[i + 1], c, f, k);
        }
      }
      DeliveredValues(os[1..], vs[1..], c, f, k);
    }
  }

  /** The instruction at the builder's end is the next one to run. */
  lemma NextIsEmitted(b: Builder, i: Instr, m: Machine, c: Config)
    requires Extends(Emit(b, i).blocks, m.code) && AtEnd(c, b)
    ensures Next(m, c) == Perform(i, c, m.frame)
  {
    assert PrefixAt(Emit(b, i).blocks, m.code, b.cur);
    assert Emit(b, i).blocks[b.cur][c.pc] == i;
  }

  lemma RunOnce(m: Machine, c: Config, n: nat)
    ensures Run(m, c, n + 1) == Next(m, Run(m, c, n))
  {
    RunAdds(m, c, n, 1);
    assert Run(m, Run(m, c, n), 1) == Next(m, Run(m, c, n)) by {
      assert Run(m, Next(m, Run(m, c, n)), 0) == Next(m, Run(m, c, n));
    }
  }

  /** What running an expression's code achieves. */
  ghost predicate Evaluates(e: Expr, slots: Slots, b: Builder, f: Frame, env: Env, c: Config, c': Config)
  {
    var (o, b') := GenExpr(e, slots, b);
    && c.Running?
    && AtEnd(c', b')
    && Preserves(c, c', b.regs)
    && c'.trace == Eval(e, f, env, c.trace).1
    && Delivers(o, Eval(e, f, env, c.trace).0, c', f, b'.regs)
  }

  lemma {:induction false} SimExpr(e: Expr, slots: Slots, b: Builder, m: Machine, env: Env, c: Config) returns (n: nat)
    requires AtEnd(c, b) && Rel(c, env, slots) && SlotsBelow(slots, b.regs)
    requires ExprOk(e, InSlots(slots))
    requires Extends(GenExpr(e, slots, b).1.blocks, m.code)
    ensures Evaluates(e, slots, b, m.frame, env, c, Run(m, c, n))
    decreases e, 2
  {
    match e
    case Literal(v) => n := 0;
    case Argument(i) => n := 0;
    case Local(_) =>
      SimLoad(e, slots, b, m, env, c);
      n := 1;
    case Binary(_, _, _, _) => n := SimBinary(e, slots, b, m, env, c);
    case Logical(_, _, _) => n := SimLogical(e, slots, b, m, env, c);
    case Call(_, _) => n := SimCall(e, slots, b, m, env, c);
    case Cast(_, _, _) => n := SimCast(e, slots, b, m, env, c);
  }

  lemma SimLoad(e: Expr, slots: Slots, b: Builder, m: Machine, env: Env, c: Config)
    requires e.Local? && e.decl in slots
    requires AtEnd(c, b) && Rel(c, env, slots)
    requires Extends(GenExpr(e, slots, b).1.blocks, m.code)
    ensures Evaluates(e, slots, b, m.frame, env, c, Run(m, c, 1))
  {
    NextIsEmitted(b, Load(b.regs, Reg(slots[e.decl])), m, c);
    assert Holds(c, env, slots, e.decl);
    RunOnce(m, c, 0);
  }

  lemma {:induction false} SimCast(e: Expr, slots: Slots, b: Builder, m: Machine, env: Env, c: Config) returns (n: nat)
    requires e.Cast?
    requires AtEnd(c, b) && Rel(c, env, slots) && SlotsBelow(slots, b.regs)
    requires ExprOk(e, InSlots(slots))
    requires Extends(GenExpr(e, slots, b).1.blocks, m.code)
    ensures Evaluates(e, slots, b, m.frame, env, c, Run(m, c, n))
    decreases e, 1
  {
    hide Run;
    var (o, b1) := GenExpr(e.operand, slots, b);
    var i := IntCast(b1.regs, e.from.Width(), e.to.Width(), o);
    GrowExpr(e.operand, slots, b);
    EmitGrows(b1, b1, i);
    FitsEarlier(b1, EmitValue(b1, i), m.code);
    n := SimExpr(e.operand, slots, b, m, env, c);
    NextIsEmitted(b1, i, m, Run(m, c, n));
    RunOnce(m, c, n);
    CastRealisesMeaning(e.from, e.to, Eval(e.operand, m.frame, env, c.trace).0);
    PreservesTrans(c, Run(m, c, n), Run(m, c, n + 1), b.regs, b1.regs);
    n := n + 1;
  }

  lemma {:induction false} SimBinary(e: Expr, slots: Slots, b: Builder, m: Machine, env: Env, c: Config)
    returns (n: nat)
    requires e.Binary?
    requires AtEnd(c, b) && Rel(c, env, slots) && SlotsBelow(slots, b.regs)
    requires ExprOk(e, InSlots(slots))
    requires Extends(GenExpr(e, slots, b).1.blocks, m.code)
    ensures Evaluates(e, slots, b, m.frame, env, c, Run(m, c, n))
    decreases e, 1
  {
    hide Run, Apply, Select;
    var (x, b1) := GenExpr(e.lhs, slots, b);
    var (y, b2) := GenExpr(e.rhs, slots, b1);
    var i := Compute(b2.regs, Select(e.op, e.ty), e.ty.Width(), x, y);
    EmitGrows(b2, b2, i);
    FitsEarlier(b2, EmitValue(b2, i), m.code);
    GrowExpr(e.lhs, slots, b);
    GrowExpr(e.rhs, slots, b1);
    var k, l := SimTwo(e, slots, b, b1, m, env, c);
    RunAdds(m, c, k, l);
    SimCompute(e, slots, b, b1, b2, m, env, c, Run(m, c, k), Run(m, Run(m, c, k), l));
    RunOnce(m, c, k + l);
    n := k + l + 1;
  }

  /** Two expressions one after the other. */
  lemma {:induction false} SimTwo(e: Expr, slots: Slots, b: Builder, b1: Builder, m: Machine, env: Env, c: Config)
    returns (k: nat, l: nat)
    requires AtEnd(c, b) && Rel(c, env, slots) && SlotsBelow(slots, b.regs)
    requires e.Binary? && ExprOk(e, InSlots(slots))
    requires b1 == GenExpr(e.lhs, slots, b).1 && Extends(GenExpr(e.rhs, slots, b1).1.blocks, m.code)
    ensures var c1 := Run(m, c, k);
            && Evaluates(e.lhs, slots, b, m.frame, env, c, c1)
            && Evaluates(e.rhs, slots, b1, m.frame, env, c1, Run(m, c1, l))
    decreases e, 0
  {
    GrowExpr(e.lhs, slots, b);
    GrowExpr(e.rhs, slots, b1);
    FitsEarlier(b1, GenExpr(e.rhs, slots, b1).1, m.code);
    k := SimExpr(e.lhs, slots, b, m, env, c);
    PreservesRel(c, Run(m, c, k), env, slots, b.regs);
    l := SimExpr(e.rhs, slots, b1, m, env, Run(m, c, k));
  }

  lemma SimCompute(e: Expr, slots: Slots, b: Builder, b1: Builder, b2: Builder, m: Machine, env: Env,
                   c: Config, c1: Config, c2: Config)
    requires e.Binary? && Faithful(e.op, e.ty)
    requires b1 == GenExpr(e.lhs, slots, b).1 && b2 == GenExpr(e.rhs, slots, b1).1
    requires b.regs <= b1.regs <= b2.regs
    requires Evaluates(e.lhs, slots, b, m.frame, env, c, c1) && Evaluates(e.rhs, slots, b1, m.frame, env, c1, c2)
    requires Extends(GenExpr(e, slots, b).1.blocks, m.code)
    ensures Evaluates(e, slots, b, m.frame, env, c, Next(m, c2))
  {
    var f := m.frame;
    var (v, t) := Eval(e.lhs, f, env, c.trace);
    var (x, y) := (GenExpr(e.lhs, slots, b).0, GenExpr(e.rhs, slots, b1).0);
    var i := Compute(b2.regs, Select(e.op, e.ty), e.ty.Width(), x, y);
    DeliversLater(x, v, c1, c2, f, b1.regs, b2.regs);
    NextIsEmitted(b2, i, m, c2);
    SelectionRealisesMeaning(e.op, e.ty, v, Eval(e.rhs, f, env, t).0, f.world.undef);
    PreservesTrans(c, c1, c2, b.regs, b1.regs);
    PreservesTrans(c, c2, Next(m, c2), b.regs, b2.regs);
  }

  lemma {:induction false} SimCall(e: Expr, slots: Slots, b: Builder, m: Machine, env: Env, c: Config) returns (n: nat)
    requires e.Call?
    requires AtEnd(c, b) && Rel(c, env, slots) && SlotsBelow(slots, b.regs)
    requires ExprOk(e, InSlots(slots))
    requires Extends(GenExpr(e, slots, b).1.blocks, m.code)
    ensures Evaluates(e, slots, b, m.frame, env, c, Run(m, c, n))
    decreases e, 1
  {
    hide Run, EvalAll, Extends, GenAll, Next, OnNumbers;
    var (os, b1) := GenAll(e.arguments, slots, b);
    var i := Invoke(b1.regs, e.callee, os);
    GrowAll(e.arguments, slots, b);
    EmitGrows(b1, b1, i);
    FitsEarlier(b1, EmitValue(b1, i), m.code);
    var k := SimAll(e.arguments, slots, b, m, env, c);
    var c1 := Run(m, c, k);
    DeliveredValues(os, EvalAll(e.arguments, m.frame, env, c.trace).0, c1, m.frame, b1.regs);
    NextIsEmitted(b1, i, m, c1);
    RunOnce(m, c, k);
    PreservesTrans(c, c1, Run(m, c, k + 1), b.regs, b1.regs);
    n := k + 1;
  }

  lemma {:induction false} SimAll(es: seq<Expr>, slots: Slots, b: Builder, m: Machine, env: Env, c: Config)
    returns (n: nat)
    requires AtEnd(c, b) && Rel(c, env, slots) && SlotsBelow(slots, b.regs)
    requires forall i :: 0 <= i < |es| ==> ExprOk(es[i], InSlots(slots))
    requires Extends(GenAll(es, slots, b).1.blocks, m.code)
    ensures var (os, b') := GenAll(es, slots, b); var (vs, t) := EvalAll(es, m.frame, env, c.trace);
            var c' := Run(m, c, n);
            AtEnd(c', b') && Preserves(c, c', b.regs) && c'.trace == t && DeliverAll(os, vs, c', m.frame, b'.regs)
    decreases es
  {
    hide LogicalStart, LogicalTest, Next, OnNumbers;
    if es == [] {
      n := 0;
    } else {
      hide Run;
      var (o, b1) := GenExpr(es[0], slots, b);
      var (os, b2) := GenAll(es[1..], slots, b1);
      GrowExpr(es[0], slots, b);
      GrowAll(es[1..], slots, b1);
      FitsEarlier(b1, b2, m.code);
      var k := SimExpr(es[0], slots, b, m, env, c);
      var c1 := Run(m, c, k);
      PreservesRel(c, c1, env, slots, b.regs);
      var l := SimAll(es[1..], slots, b1, m, env, c1);
      var c2 := Run(m, c1, l);
      RunAdds(m, c, k, l);
      n := k + l;
      PreservesTrans(c, c1, c2, b.regs, b1.regs);
      var (v, t) := Eval(es[0], m.frame, env, c.trace);
      var vs := EvalAll(es[1..], m.frame, env, t).0;
      DeliversLater(o, v, c1, c2, m.frame, b1.regs, b2.regs);
      forall i | 0 <= i < |[o] + os| ensures Delivers(([o] + os)[i], ([v] + vs)[i], c2, m.frame, b2.regs) {
        if i > 0 {
          assert Delivers(os[i - 1], vs[i - 1], c2, m.frame, b2.regs);
        }
      }
    }
  }

  // ----- && and || -----

  /** Presetting the temporary. */
  lemma SimLogicalStart(conj: bool, b: Builder, m: Machine, c: Config)
    requires AtEnd(c, b) && Extends(LogicalStart(conj, b).blocks, m.code)
    ensures var c' := Run(m, c, 2); var s := LogicalStart(conj, b);
            && AtEnd(c', s) && Preserves(c, c', b.regs) && c'.trace == c.trace
            && b.regs in c'.regs && c'.regs[b.regs] == |c.mem|
            && |c.mem| < |c'.mem| && c'.mem[|c.mem|] == BoolWord(!conj)
  {
    var b1 := EmitValue(b, Alloca(b.regs));
    var i := Store(Const(BoolWord(!conj)), Reg(b.regs));
    var b2 := Emit(b1, i);
    assert Extends(b2.blocks, LogicalStart(conj, b).blocks) by {
      forall k | 0 <= k < |b2.blocks| ensures PrefixAt(b2.blocks, LogicalStart(conj, b).blocks, k) {}
    }
    ExtendsTrans(b2.blocks, LogicalStart(conj, b).blocks, m.code);
    EmitGrows(b1, b1, i);
    FitsEarlier(b1, b2, m.code);
    NextIsEmitted(b, Alloca(b.regs), m, c);
    RunOnce(m, c, 0);
    NextIsEmitted(b1, i, m, Run(m, c, 1));
    RunOnce(m, c, 1);
  }

  /** One operand and its test: on to `target` when the operand's truth is conj, else to
      the end block. */
  lemma {:induction false} SimTested(conj: bool, e: Expr, target: nat, first: nat, slots: Slots, b: Builder, m: Machine,
                                     env: Env, c: Config) returns (n: nat)
    requires target < |b.blocks|
    requires AtEnd(c, b) && Rel(c, env, slots) && SlotsBelow(slots, b.regs)
    requires ExprOk(e, InSlots(slots))
    requires Extends(GenTested(conj, e, target, first, slots, b).blocks, m.code)
    ensures var c' := Run(m, c, n); var (v, t) := Eval(e, m.frame, env, c.trace);
            && Preserves(c, c', b.regs) && c'.trace == t && c'.pc == 0
            && c'.blk == if Truth(v) == conj then target else first + 2
    decreases e, 3
  {
    var (x, b1) := GenExpr(e, slots, b);
    GrowExpr(e, slots, b);
    GrowTest(conj, x, target, first, b1);
    FitsEarlier(b1, LogicalTest(conj, x, target, first, b1), m.code);
    n := SimExpr(e, slots, b, m, env, c);
    var c1 := Run(m, c, n);
    SimTest(conj, x, Eval(e, m.frame, env, c.trace).0, target, first, b1, m, c1);
    RunAdds(m, c, n, 2);
    PreservesTrans(c, c1, Run(m, c1, 2), b.regs, b1.regs);
    n := n + 2;
  }

  lemma GrowTest(conj: bool, x: Operand, target: nat, first: nat, b: Builder)
    requires target < |b.blocks|
    ensures Keeps(b, LogicalTest(conj, x, target, first, b))
  {}

  lemma SimTest(conj: bool, x: Operand, v: int, target: nat, first: nat, b: Builder, m: Machine, c: Config)
    requires target < |b.blocks| && AtEnd(c, b) && Delivers(x, v, c, m.frame, b.regs)
    requires Extends(LogicalTest(conj, x, target, first, b).blocks, m.code)
    ensures var c' := Run(m, c, 2);
            && Preserves(c, c', b.regs) && c'.trace == c.trace && c'.pc == 0
            && c'.blk == if Truth(v) == conj then target else first + 2
  {
    var i := Compute(b.regs, IcmpEq, 1, x, Const(BoolWord(conj)));
    var b1 := EmitValue(b, i);
    var j := CondBr(Reg(b.regs), target, first + 2);
    EmitGrows(b1, b1, j);
    FitsEarlier(b1, Emit(b1, j), m.code);
    NextIsEmitted(b, i, m, c);
    RunOnce(m, c, 0);
    NextIsEmitted(b1, j, m, Run(m, c, 1));
    RunOnce(m, c, 1);
    TestOfBoolean(v, conj, m.frame.world.undef);
  }

  lemma TestOfBoolean(v: int, conj: bool, undef: (int, int) -> int)
    ensures Truth(Apply(IcmpEq, 1, v, BoolWord(conj), undef)) <==> Truth(v) == conj
    ensures Truth(Apply(IcmpNe, 1, v, 0, undef)) <==> Truth(v)
  {
    assert Pow2(1) == 2 * Pow2(0) == 2;
  }

  /** The blocks of the diamond are still empty when their turn comes. */
  lemma {:induction false} DiamondBlocks(conj: bool, l: Expr, r: Expr, first: nat, slots: Slots, s: Builder)
    requires s.cur < first && first + 2 < |s.blocks|
    requires s.blocks[first] == s.blocks[first + 1] == s.blocks[first + 2] == []
    ensures var b1 := GenTested(conj, l, first, first, slots, s);
            var b2 := GenTested(conj, r, first + 1, first, slots, b1);
            && Keeps(s, b1) && b1.cur == first && b1.blocks[first] == []
            && Keeps(b1, b2) && b2.cur == first + 1 && b2.blocks[first + 1] == [] && b2.blocks[first + 2] == []
  {
    var b1 := GenTested(conj, l, first, first, slots, s);
    GrowTested(conj, l, first, first, slots, s);
    LaterBlocksKept(s, b1, first);
    SecondOperandBlocks(conj, r, first, slots, b1);
  }

  lemma {:induction false} SecondOperandBlocks(conj: bool, r: Expr, first: nat, slots: Slots, b1: Builder)
    requires b1.cur == first && first + 2 < |b1.blocks|
    requires b1.blocks[first + 1] == b1.blocks[first + 2] == []
    ensures var b2 := GenTested(conj, r, first + 1, first, slots, b1);
            Keeps(b1, b2) && b2.cur == first + 1 && b2.blocks[first + 1] == [] && b2.blocks[first + 2] == []
  {
    GrowTested(conj, r, first + 1, first, slots, b1);
    LaterBlocksKept(b1, GenTested(conj, r, first + 1, first, slots, b1), first + 1);
  }

  lemma LaterBlocksKept(b: Builder, b': Builder, k: nat)
    requires Keeps(b, b') && b.cur < k
    ensures forall i :: k <= i < |b.blocks| ==> b'.blocks[i] == b.blocks[i]
  {
    forall i | k <= i < |b.blocks| ensures b'.blocks[i] == b.blocks[i] {
      assert SameAt(b.blocks, b'.blocks, i);
    }
  }

  /** Writing the temporary when both operands have the truth value conj. */
  lemma SimLogicalStore(conj: bool, temp: nat, first: nat, b: Builder, m: Machine, c: Config)
    requires first + 2 < |b.blocks| && AtEnd(c, b)
    requires Extends(LogicalResult(conj, Reg(temp), first, b).1.blocks, m.code)
    requires temp in c.regs && 0 <= c.regs[temp] < |c.mem|
    ensures Run(m, c, 2) == c.(blk := first + 2, pc := 0, mem := c.mem[c.regs[temp] := BoolWord(conj)])
  {
    var b1 := Emit(b, Store(Const(BoolWord(conj)), Reg(temp)));
    var b2 := Emit(b1, Br(first + 2));
    var b3 := At(b2, first + 2);
    EmitGrows(b3, b3, Load(b3.regs, Reg(temp)));
    FitsEarlier(b3, EmitValue(b3, Load(b3.regs, Reg(temp))), m.code);
    EmitGrows(b1, b1, Br(first + 2));
    FitsEarlier(b1, b2, m.code);
    NextIsEmitted(b, Store(Const(BoolWord(conj)), Reg(temp)), m, c);
    RunOnce(m, c, 0);
    NextIsEmitted(b1, Br(first + 2), m, Run(m, c, 1));
    RunOnce(m, c, 1);
  }

  /** Loading the temporary where the diamond joins. */
  lemma SimLogicalLoad(conj: bool, temp: nat, first: nat, b: Builder, m: Machine, c: Config)
    requires first + 2 < |b.blocks| && b.cur != first + 2 && b.blocks[first + 2] == []
    requires Extends(LogicalResult(conj, Reg(temp), first, b).1.blocks, m.code)
    requires c.Running? && c.blk == first + 2 && c.pc == 0 && temp in c.regs && 0 <= c.regs[temp] < |c.mem|
    ensures var (o, b') := LogicalResult(conj, Reg(temp), first, b); var c' := Next(m, c);
            AtEnd(c', b') && c'.trace == c.trace && c'.mem == c.mem && Preserves(c, c', b.regs)
            && Delivers(o, c.mem[c.regs[temp]], c', m.frame, b'.regs)
  {
    var b1 := At(Emit(Emit(b, Store(Const(BoolWord(conj)), Reg(temp))), Br(first + 2)), first + 2);
    NextIsEmitted(b1, Load(b1.regs, Reg(temp)), m, c);
  }

  /** Value `temp` points to a cell that holds w. */
  ghost predicate Temporary(c: Config, temp: nat, w: int)
  {
    c.Running? && temp in c.regs && 0 <= c.regs[temp] < |c.mem| && c.mem[c.regs[temp]] == w
  }

  lemma TemporaryLater(c: Config, c': Config, temp: nat, w: int, k: nat)
    requires Temporary(c, temp, w) && Preserves(c, c', k) && temp < k
    ensures Temporary(c', temp, w) && c'.regs[temp] == c.regs[temp]
  {
    assert KeepsValue(c, c', temp);
  }

  /** The right operand, reached when the left one does not decide. */
  lemma {:induction false} SimSecondOperand(conj: bool, r: Expr, temp: nat, first: nat, slots: Slots, b1: Builder,
                                            m: Machine, env: Env, c: Config) returns (n: nat)
    requires first + 2 < |b1.blocks| && AtEnd(c, b1) && Rel(c, env, slots) && SlotsBelow(slots, b1.regs)
    requires ExprOk(r, InSlots(slots))
    requires Temporary(c, temp, BoolWord(!conj)) && temp < b1.regs
    requires var b2 := GenTested(conj, r, first + 1, first, slots, b1);
             && b2.cur == first + 1 && b2.blocks[first + 1] == []
             && Extends(b2.blocks, m.code) && Extends(LogicalResult(conj, Reg(temp), first, b2).1.blocks, m.code)
    ensures var c' := Run(m, c, n); var (v, t) := Eval(r, m.frame, env, c.trace);
            && Temporary(c', temp, BoolWord(Truth(v))) && c'.blk == first + 2 && c'.pc == 0 && c'.trace == t
            && |c'.mem| >= |c.mem| && (forall i :: 0 <= i < |c.mem| && i != c.regs[temp] ==> c'.mem[i] == c.mem[i])
            && forall k: nat :: k < b1.regs ==> KeepsValue(c, c', k)
    decreases r, 4
  {
    hide Run;
    n := SimTested(conj, r, first + 1, first, slots, b1, m, env, c);
    var c1 := Run(m, c, n);
    TemporaryLater(c, c1, temp, BoolWord(!conj), b1.regs);
    if Truth(Eval(r, m.frame, env, c.trace).0) == conj {
      SimLogicalStore(conj, temp, first, GenTested(conj, r, first + 1, first, slots, b1), m, c1);
      RunAdds(m, c, n, 2);
      n := n + 2;
      forall k: nat | k < b1.regs ensures KeepsValue(c, Run(m, c, n), k) {
        assert KeepsValue(c, c1, k);
      }
    }
  }

  /** The whole diamond: left to right, the right operand only if the left does not decide. */
  lemma {:induction false} SimLogical(e: Expr, slots: Slots, b: Builder, m: Machine, env: Env, c: Config)
    returns (n: nat)
    requires e.Logical?
    requires AtEnd(c, b) && Rel(c, env, slots) && SlotsBelow(slots, b.regs)
    requires ExprOk(e, InSlots(slots))
    requires Extends(GenExpr(e, slots, b).1.blocks, m.code)
    ensures Evaluates(e, slots, b, m.frame, env, c, Run(m, c, n))
    decreases e, 1
  {
    hide Eval, Run, ExprOk, Extends, GenExpr, Diamond, SlotsBelow, Delivers, Preserves, Temporary;
    var s := DiamondSetup(e, slots, b, m, c);
    n := SimFromStart(e, b.regs, |b.blocks|, slots, s, m, env, c, Run(m, c, 2));
    RunAdds(m, c, 2, n);
    n := 2 + n;
  }

  lemma {:induction false} SimFromStart(e: Expr, temp: nat, first: nat, slots: Slots, s: Builder, m: Machine, env: Env,
                                        c0: Config, c: Config) returns (n: nat)
    requires e.Logical? && s.cur < first && first + 2 < |s.blocks| && s.regs == temp + 1
    requires s.blocks[first] == s.blocks[first + 1] == s.blocks[first + 2] == []
    requires Extends(Diamond(e, temp, first, slots, s).1.blocks, m.code)
    requires ExprOk(e, InSlots(slots))
    requires Rel(c0, env, slots) && SlotsBelow(slots, temp) && Preserves(c0, c, temp)
    requires AtEnd(c, s) && Temporary(c, temp, BoolWord(!e.conj)) && c.regs[temp] == |c0.mem| && c.trace == c0.trace
    ensures var c' := Run(m, c, n); var (v, t) := Eval(e, m.frame, env, c0.trace);
            var (o, b') := Diamond(e, temp, first, slots, s);
            AtEnd(c', b') && c'.trace == t && Preserves(c0, c', temp) && Delivers(o, v, c', m.frame, b'.regs)
    decreases e, 0, 2
  {
    DiamondBlocks(e.conj, e.lhs, e.rhs, first, slots, s);
    var b1 := GenTested(e.conj, e.lhs, first, first, slots, s);
    var b2 := GenTested(e.conj, e.rhs, first + 1, first, slots, b1);
    DiamondFits(e.conj, temp, first, s, b1, b2, m.code);
    n := SimDiamond(e, temp, first, slots, s, b1, b2, m, env, c0, c);
  }

  /** The state in which the first operand starts. */
  lemma {:induction false} DiamondSetup(e: Expr, slots: Slots, b: Builder, m: Machine, c: Config) returns (s: Builder)
    requires e.Logical? && AtEnd(c, b)
    requires Extends(GenExpr(e, slots, b).1.blocks, m.code)
    ensures var first := |b.blocks|;
            && s.cur < first && first + 2 < |s.blocks| && s.regs == b.regs + 1
            && s.blocks[first] == s.blocks[first + 1] == s.blocks[first + 2] == []
            && GenExpr(e, slots, b) == Diamond(e, b.regs, first, slots, s)
    ensures var c' := Run(m, c, 2);
            && AtEnd(c', s) && Preserves(c, c', b.regs) && c'.trace == c.trace
            && Temporary(c', b.regs, BoolWord(!e.conj)) && c'.regs[b.regs] == |c.mem|
  {
    s := LogicalStart(e.conj, b);
    GrowLogicalStart(e.conj, b);
    DiamondStartFits(e, b.regs, |b.blocks|, slots, s, m.code);
    SimLogicalStart(e.conj, b, m, c);
  }

  lemma {:induction false} DiamondStartFits(e: Expr, temp: nat, first: nat, slots: Slots, s: Builder, code: Code)
    requires e.Logical? && s.cur < first && first + 2 < |s.blocks|
    requires s.blocks[first] == s.blocks[first + 1] == s.blocks[first + 2] == []
    requires Extends(Diamond(e, temp, first, slots, s).1.blocks, code)
    ensures Extends(s.blocks, code)
  {
    DiamondBlocks(e.conj, e.lhs, e.rhs, first, slots, s);
    var b1 := GenTested(e.conj, e.lhs, first, first, slots, s);
    DiamondFits(e.conj, temp, first, s, b1, GenTested(e.conj, e.rhs, first + 1, first, slots, b1), code);
  }

  lemma {:induction false} SimDiamond(e: Expr, temp: nat, first: nat, slots: Slots, s: Builder, b1: Builder,
                                      b2: Builder, m: Machine, env: Env, c0: Config, c: Config) returns (n: nat)
    requires e.Logical? && first + 2 < |s.blocks| && s.regs == temp + 1
    requires b1 == GenTested(e.conj, e.lhs, first, first, slots, s)
    requires b2 == GenTested(e.conj, e.rhs, first + 1, first, slots, b1)
    requires Keeps(s, b1) && b1.cur == first && b1.blocks[first] == []
    requires Keeps(b1, b2) && b2.cur == first + 1 && b2.blocks[first + 1] == b2.blocks[first + 2] == []
    requires Extends(b1.blocks, m.code) && Extends(b2.blocks, m.code)
    requires Extends(LogicalResult(e.conj, Reg(temp), first, b2).1.blocks, m.code)
    requires ExprOk(e, InSlots(slots))
    requires Rel(c0, env, slots) && SlotsBelow(slots, temp) && Preserves(c0, c, temp)
    requires AtEnd(c, s) && Temporary(c, temp, BoolWord(!e.conj)) && c.regs[temp] == |c0.mem| && c.trace == c0.trace
    ensures var c' := Run(m, c, n); var (v, t) := Eval(e, m.frame, env, c0.trace);
            var (o, b') := LogicalResult(e.conj, Reg(temp), first, b2);
            AtEnd(c', b') && c'.trace == t && Preserves(c0, c', temp) && Delivers(o, v, c', m.frame, b'.regs)
    decreases e, 0, 1
  {
    n := SimOperands(e, temp, first, slots, s, b1, b2, m, env, c0, c);
    var c1 := Run(m, c, n);
    SimLogicalLoad(e.conj, temp, first, b2, m, c1);
    RunOnce(m, c, n);
    PreservesTrans(c0, c1, Next(m, c1), temp, b2.regs);
    n := n + 1;
  }

  /** From the preset temporary to the join. */
  lemma {:induction false} SimOperands(e: Expr, temp: nat, first: nat, slots: Slots, s: Builder, b1: Builder,
                                       b2: Builder, m: Machine, env: Env, c0: Config, c: Config) returns (n: nat)
    requires e.Logical? && first + 2 < |s.blocks| && s.regs == temp + 1
    requires b1 == GenTested(e.conj, e.lhs, first, first, slots, s)
    requires b2 == GenTested(e.conj, e.rhs, first + 1, first, slots, b1)
    requires Keeps(s, b1) && b1.cur == first && b1.blocks[first] == []
    requires Keeps(b1, b2) && b2.cur == first + 1 && b2.blocks[first + 1] == []
    requires Extends(b1.blocks, m.code) && Extends(b2.blocks, m.code)
    requires Extends(LogicalResult(e.conj, Reg(temp), first, b2).1.blocks, m.code)
    requires ExprOk(e, InSlots(slots))
    requires Rel(c0, env, slots) && SlotsBelow(slots, temp) && Preserves(c0, c, temp)
    requires AtEnd(c, s) && Temporary(c, temp, BoolWord(!e.conj)) && c.regs[temp] == |c0.mem| && c.trace == c0.trace
    ensures var c' := Run(m, c, n); var (v, t) := Eval(e, m.frame, env, c0.trace);
            && Temporary(c', temp, v) && c'.blk == first + 2 && c'.pc == 0 && c'.trace == t && Preserves(c0, c', temp)
    decreases e, 0, 0
  {
    hide Run, KeepsValue, LogicalResult, Meaning;
    PreservesRel(c0, c, env, slots, temp);
    n := SimTested(e.conj, e.lhs, first, first, slots, s, m, env, c);
    var c1 := Run(m, c, n);
    PreservesTrans(c0, c, c1, temp, s.regs);
    TemporaryLater(c, c1, temp, BoolWord(!e.conj), s.regs);
    if Truth(Eval(e.lhs, m.frame, env, c.trace).0) == e.conj {
      PreservesRel(c0, c1, env, slots, temp);
      var k := SimSecondOperand(e.conj, e.rhs, temp, first, slots, b1, m, env, c1);
      RunAdds(m, c, n, k);
      n := n + k;
      PreservesBut(c0, c1, Run(m, c, n), temp);
    }
  }

  lemma PreservesBut(c0: Config, c1: Config, c2: Config, temp: nat)
    requires Preserves(c0, c1, temp) && c2.Running? && temp in c1.regs && c1.regs[temp] == |c0.mem|
    requires |c2.mem| >= |c1.mem| && forall i :: 0 <= i < |c1.mem| && i != c1.regs[temp] ==> c2.mem[i] == c1.mem[i]
    requires forall k: nat :: k < temp ==> KeepsValue(c1, c2, k)
    ensures Preserves(c0, c2, temp)
  {
    forall r: nat | r < temp ensures KeepsValue(c0, c2, r) {
      assert KeepsValue(c0, c1, r) && KeepsValue(c1, c2, r);
    }
  }

  lemma DiamondFits(conj: bool, temp: nat, first: nat, s: Builder, b1: Builder, b2: Builder, code: Code)
    requires Keeps(s, b1) && Keeps(b1, b2) && first + 2 < |b2.blocks|
    requires Extends(LogicalResult(conj, Reg(temp), first, b2).1.blocks, code)
    ensures Extends(s.blocks, code) && Extends(b1.blocks, code) && Extends(b2.blocks, code)
  {
    var b3 := Emit(b2, Store(Const(BoolWord(conj)), Reg(temp)));
    var b4 := Emit(b3, Br(first + 2));
    var b5 := At(b4, first + 2);
    EmitGrows(b5, b5, Load(b5.regs, Reg(temp)));
    FitsEarlier(b5, EmitValue(b5, Load(b5.regs, Reg(temp))), code);
    EmitGrows(b2, b2, Store(Const(BoolWord(conj)), Reg(temp)));
    EmitGrows(b2, b3, Br(first + 2));
    FitsEarlier(b2, b4, code);
    FitsEarlier(b1, b2, code);
    FitsEarlier(s, b1, code);
  }
}
