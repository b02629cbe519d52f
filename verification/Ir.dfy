// The fragment of LLVM IR that code generation emits, and a machine that runs it.
module Ir {
  import opened Words
  import opened Source

  datatype Operand = Const(value: int) | Reg(id: nat) | Param(index: nat)

  datatype Instr =
    | Alloca(dest: nat)
    | Store(value: Operand, ptr: Operand)
    | Load(dest: nat, ptr: Operand)
    | Compute(dest: nat, opc: Opcode, width: nat, lhs: Operand, rhs: Operand)
    | IntCast(dest: nat, from: nat, to: nat, operand: Operand)
    | Invoke(dest: nat, callee: string, arguments: seq<Operand>)
    | Br(target: nat)
    | CondBr(cond: Operand, ifTrue: nat, ifFalse: nat)
    | Ret(result: Option<Operand>)
  {
    predicate IsTerminator() { Br? || CondBr? || Ret? }
  }

  /** The blocks of a function, numbered in the order they are created; 0 is the entry. */
  type Code = seq<seq<Instr>>

  datatype Config =
    | Running(blk: nat, pc: nat, regs: map<nat, int>, mem: seq<int>, trace: seq<Event>)
    | Halted(value: Option<int>, mem: seq<int>, trace: seq<Event>)
    | Stuck

  datatype Machine = Machine(code: Code, frame: Frame)

  predicate Ready(o: Operand, c: Config)
    requires c.Running?
  {
    o.Reg? ==> o.id in c.regs
  }

  function ValueOf(o: Operand, c: Config, f: Frame): int
    requires c.Running? && Ready(o, c)
  {
    match o
    case Const(v) => v
    case Reg(r) => c.regs[r]
    case Param(i) => if i < |f.args| then f.args[i] else 0
  }

  function Values(os: seq<Operand>, c: Config, f: Frame): seq<int>
    requires c.Running? && forall i :: 0 <= i < |os| ==> Ready(os[i], c)
  {
    if os == [] then [] else [ValueOf(os[0], c, f)] + Values(os[1..], c, f)
  }

  /** The effect of the instruction at the program counter. */
  function Perform(i: Instr, c: Config, f: Frame): Config
    requires c.Running?
  {
    match i
    case Alloca(r) => c.(pc := c.pc + 1, regs := c.regs[r := |c.mem|], mem := c.mem + [f.world.cell(|c.mem|)])
    case Store(v, p) =>
      if Ready(v, c) && Ready(p, c) && 0 <= ValueOf(p, c, f) < |c.mem|
      then c.(pc := c.pc + 1, mem := c.mem[ValueOf(p, c, f) := ValueOf(v, c, f)]) else Stuck
    case Load(r, p) =>
      if Ready(p, c) && 0 <= ValueOf(p, c, f) < |c.mem|
      then c.(pc := c.pc + 1, regs := c.regs[r := c.mem[ValueOf(p, c, f)]]) else Stuck
    case Compute(r, opc, w, x, y) =>
      if Ready(x, c) && Ready(y, c)
      then c.(pc := c.pc + 1, regs := c.regs[r := Apply(opc, w, ValueOf(x, c, f), ValueOf(y, c, f), f.world.undef)])
      else Stuck
    case IntCast(r, from, to, x) =>
      if Ready(x, c) then c.(pc := c.pc + 1, regs := c.regs[r := ApplyCast(from, to, ValueOf(x, c, f))]) else Stuck
    case Invoke(r, callee, os) =>
      if forall k :: 0 <= k < |os| ==> Ready(os[k], c) then
        var t := c.trace + [Event(callee, Values(os, c, f))];
        c.(pc := c.pc + 1, regs := c.regs[r := f.world.reply(t)], trace := t)
      else Stuck
    case Br(t) => c.(blk := t, pc := 0)
    case CondBr(x, t, e) =>
      if Ready(x, c) then c.(blk := if ValueOf(x, c, f) % 2 == 1 then t else e, pc := 0) else Stuck
    case Ret(None) => Halted(None, c.mem, c.trace)
    case Ret(Some(x)) => if Ready(x, c) then Halted(Some(ValueOf(x, c, f)), c.mem, c.trace) else Stuck
  }

  function Next(m: Machine, c: Config): Config
  {
    if !c.Running? then c
    else if c.blk < |m.code| && c.pc < |m.code[c.blk]| then Perform(m.code[c.blk][c.pc], c, m.frame)
    else Stuck
  }

  function Run(m: Machine, c: Config, n: nat): Config
    decreases n
  {
    if n == 0 then c else Run(m, Next(m, c), n - 1)
  }

  lemma {:induction false} RunAdds(m: Machine, c: Config, j: nat, k: nat)
    ensures Run(m, Run(m, c, j), k) == Run(m, c, j + k)
    decreases j
  {
    if j > 0 {
      RunAdds(m, Next(m, c), j - 1, k);
    }
  }

  lemma {:induction false} RunStays(m: Machine, c: Config, n: nat)
    requires !c.Running?
    ensures Run(m, c, n) == c
  {
    if n > 0 {
      RunStays(m, c, n - 1);
    }
  }

  function TraceOf(c: Config): seq<Event>
  {
    match c
    case Running(_, _, _, _, t) => t
    case Halted(_, _, t) => t
    case Stuck => []
  }
}
