// What the bytecode generator is meant to write: the same code with every label known in
// advance (the expression cases of attic/compile_vm.cpp).
module Assembler {
  import opened Words
  import opened Bytecode

  /** Expression trees as the bytecode generator sees them. `Other` is every node for which
      it has no case. */
  datatype Node =
    | Literal(value: int)
    | Binary(op: BinOp, lhs: Node, rhs: Node)
    | Logical(conjunction: bool, lhs: Node, rhs: Node)
    | Other

  predicate Supported(e: Node)
  {
    match e
    case Literal(_) => true
    case Binary(_, l, r) => Supported(l) && Supported(r)
    case Logical(_, l, r) => Supported(l) && Supported(r)
    case Other => false
  }

  /** Literals are 64-bit numbers. */
  predicate LiteralsFit(e: Node)
  {
    match e
    case Literal(v) => IsInt64(v)
    case Binary(_, l, r) => LiteralsFit(l) && LiteralsFit(r)
    case Logical(_, l, r) => LiteralsFit(l) && LiteralsFit(r)
    case Other => true
  }

  function OpCodeOf(op: BinOp): OpCode
  {
    match op
    case Mul => MUL case Div => DIV case Mod => MOD case Add => ADD case Sub => SUB
    case BitAnd => BITAND case BitOr => BITOR case BitXor => BITXOR
    case Shl => LSH case Shr => RSH
    case Eq => CMPEQ case Ne => CMPNE case Ge => CMPGE case Gt => CMPGT case Le => CMPLE case Lt => CMPLT
  }

  /** The number of bytes an expression compiles to. */
  function Size(e: Node): nat
  {
    match e
    case Literal(_) => 9
    case Binary(_, l, r) => Size(l) + Size(r) + 1
    case Logical(_, l, r) => Size(l) + 9 + Size(r) + 36
    case Other => 0
  }

  /** The jump that leaves a short-circuit operator early. */
  function EarlyExit(conjunction: bool, target: int): Insn { Insn(if conjunction then JMP0 else JMP1, target) }

  /** The four instructions behind the right operand of a short-circuit operator. */
  function Tail(conjunction: bool, early: int, done: int): seq<Insn>
  {
    [EarlyExit(conjunction, early), Insn(PUSHC, BoolWord(conjunction)), Insn(JMP, done),
     Insn(PUSHC, BoolWord(!conjunction))]
  }

  /** The code of an expression that starts at address `base`. */
  function Assemble(e: Node, base: nat): seq<Insn>
  {
    match e
    case Literal(v) => [Insn(PUSHC, v)]
    case Binary(op, l, r) => Assemble(l, base) + Assemble(r, base + Size(l)) + [Insn(OpCodeOf(op), 0)]
    case Logical(conjunction, l, r) =>
      var done := base + Size(e);
      var early := done - 9;
      Assemble(l, base) + [EarlyExit(conjunction, early)] + Assemble(r, base + Size(l) + 9) +
        Tail(conjunction, early, done)
    case Other => []
  }

  function CodeBytes(e: Node, base: nat): seq<Byte> { EncodeAll(Assemble(e, base)) }

  lemma EncodeOne(i: Insn)
    ensures EncodeAll([i]) == EncodeInsn(i)
  {
    assert EncodeAll([]) == [];
  }

  function TailBytes(conjunction: bool, early: int, done: int): (r: seq<Byte>)
    ensures |r| == 36
  {
    Op64(if conjunction then JMP0 else JMP1, early) + Op64(PUSHC, BoolWord(conjunction)) + Op64(JMP, done)
    + Op64(PUSHC, BoolWord(!conjunction))
  }

  lemma {:induction false} EncodeFour(x: seq<Insn>, j: Insn, y: seq<Insn>, t: seq<Insn>)
    ensures EncodeAll(x + [j] + y + t) == EncodeAll(x) + EncodeInsn(j) + EncodeAll(y) + EncodeAll(t)
  {
    EncodeTwo(x + [j] + y, t);
    EncodeTwo(x + [j], y);
    EncodeTwo(x, [j]);
    EncodeOne(j);
  }

  lemma {:induction false} EncodeTail(conjunction: bool, early: int, done: int)
    ensures EncodeAll(Tail(conjunction, early, done)) == TailBytes(conjunction, early, done)
  {
    var t := Tail(conjunction, early, done);
    EncodeFour([t[0]], t[1], [t[2]], [t[3]]);
    assert t == [t[0]] + [t[1]] + [t[2]] + [t[3]];
    EncodeOne(t[0]);
    EncodeOne(t[2]);
    EncodeOne(t[3]);
  }

  lemma {:induction false} BytesOfLiteral(v: int, base: nat)
    ensures CodeBytes(Literal(v), base) == Op64(PUSHC, v)
  {
    EncodeOne(Insn(PUSHC, v));
  }

  lemma {:induction false} BytesOfBinary(op: BinOp, l: Node, r: Node, base: nat)
    ensures CodeBytes(Binary(op, l, r), base) == CodeBytes(l, base) + CodeBytes(r, base + Size(l)) + [OpCodeOf(op)]
  {
    hide EncodeAll, Size;
    var x, y, z := Assemble(l, base), Assemble(r, base + Size(l)), Insn(OpCodeOf(op), 0);
    EncodeTwo(x + y, [z]);
    EncodeTwo(x, y);
    EncodeOne(z);
  }

  lemma {:induction false} BytesOfLogical(conjunction: bool, l: Node, r: Node, base: nat)
    ensures var done := base + Size(l) + Size(r) + 45;
            CodeBytes(Logical(conjunction, l, r), base)
            == CodeBytes(l, base) + Op64(if conjunction then JMP0 else JMP1, done - 9)
               + CodeBytes(r, base + Size(l) + 9) + TailBytes(conjunction, done - 9, done)
  {
    hide EncodeAll, Op64, Tail, TailBytes;
    var done := base + Size(l) + Size(r) + 45;
    var j, t := EarlyExit(conjunction, done - 9), Tail(conjunction, done - 9, done);
    EncodeFour(Assemble(l, base), j, Assemble(r, base + Size(l) + 9), t);
    EncodeTail(conjunction, done - 9, done);
  }

  lemma NoBytesOfOther(base: nat)
    ensures CodeBytes(Other, base) == []
  {}

  /** `Size` counts what `Assemble` produces, so the labels are where they claim to be. */
  lemma {:induction false} SizeCounts(e: Node, base: nat)
    ensures |CodeBytes(e, base)| == Size(e)
  {
    hide CodeBytes, Op64, TailBytes;
    match e
    case Literal(v) => BytesOfLiteral(v, base);
    case Binary(op, l, r) =>
      BytesOfBinary(op, l, r, base);
      SizeCounts(l, base);
      SizeCounts(r, base + Size(l));
    case Logical(conjunction, l, r) =>
      BytesOfLogical(conjunction, l, r, base);
      SizeCounts(l, base);
      SizeCounts(r, base + Size(l) + 9);
    case Other => NoBytesOfOther(base);
  }

  // ----- jumps land on instructions -----

  /** `a` is where an instruction of `code`, laid out from `base`, starts, or where it ends. */
  predicate Boundary(code: seq<Insn>, base: nat, a: int)
    decreases code
  {
    a == base || (code != [] && Boundary(code[1..], base + Width(code[0].op), a))
  }

  lemma {:induction false} BoundaryOfTwo(xs: seq<Insn>, ys: seq<Insn>, base: nat, a: int)
    ensures Boundary(xs + ys, base, a) <==> Boundary(xs, base, a) || Boundary(ys, base + |EncodeAll(xs)|, a)
    decreases xs
  {
    if xs == [] {
      assert xs + ys == ys;
    } else {
      assert (xs + ys)[1..] == xs[1..] + ys;
      BoundaryOfTwo(xs[1..], ys, base + Width(xs[0].op), a);
    }
  }

  predicate IsJump(op: OpCode) { op == JMP || op == JMP0 || op == JMP1 }

  predicate JumpsLand(code: seq<Insn>, all: seq<Insn>, base: nat)
  {
    forall i :: 0 <= i < |code| && IsJump(code[i].op) ==> Boundary(all, base, code[i].argument)
  }

  lemma {:induction false} BoundariesEmbed(p: seq<Insn>, x: seq<Insn>, q: seq<Insn>, base: nat, a: int)
    requires Boundary(x, base + |EncodeAll(p)|, a)
    ensures Boundary(p + x + q, base, a)
  {
    BoundaryOfTwo(p, x, base, a);
    BoundaryOfTwo(p + x, q, base, a);
  }

  lemma {:induction false} JumpsEmbed(p: seq<Insn>, x: seq<Insn>, q: seq<Insn>, base: nat)
    requires JumpsLand(x, x, base + |EncodeAll(p)|)
    ensures JumpsLand(x, p + x + q, base)
  {
    forall i | 0 <= i < |x| && IsJump(x[i].op) ensures Boundary(p + x + q, base, x[i].argument) {
      BoundariesEmbed(p, x, q, base, x[i].argument);
    }
  }

  lemma LabelsOfTail(conjunction: bool, early: int, done: int, start: nat)
    requires early == start + 27 && done == start + 36
    ensures Boundary(Tail(conjunction, early, done), start, early) &&
            Boundary(Tail(conjunction, early, done), start, done)
  {
    var t := Tail(conjunction, early, done);
    assert t[1..][1..][1..][1..] == [];
    assert Boundary([], start + 36, done);
    assert Boundary(t[1..][1..][1..], start + 27, early) && Boundary(t[1..][1..][1..], start + 27, done);
    assert Boundary(t[1..][1..], start + 18, early) && Boundary(t[1..][1..], start + 18, done);
    assert Boundary(t[1..], start + 9, early) && Boundary(t[1..], start + 9, done);
  }

  lemma {:induction false} JumpsOfParts(xs: seq<Insn>, ys: seq<Insn>, all: seq<Insn>, base: nat)
    requires JumpsLand(xs, all, base) && JumpsLand(ys, all, base)
    ensures JumpsLand(xs + ys, all, base)
  {}

  lemma {:induction false} JumpsOfBinary(x: seq<Insn>, y: seq<Insn>, z: Insn, base: nat)
    requires JumpsLand(x, x, base) && JumpsLand(y, y, base + |EncodeAll(x)|) && !IsJump(z.op)
    ensures JumpsLand(x + y + [z], x + y + [z], base)
  {
    assert EncodeAll([]) == [];
    JumpsEmbed([], x, y + [z], base);
    assert [] + x + (y + [z]) == x + y + [z];
    JumpsEmbed(x, y, [z], base);
    JumpsOfParts(x, y, x + y + [z], base);
    JumpsOfParts(x + y, [z], x + y + [z], base);
  }

  lemma {:induction false} LabelsEmbed(p: seq<Insn>, t: seq<Insn>, base: nat, early: nat, done: nat)
    requires Boundary(t, base + |EncodeAll(p)|, early) && Boundary(t, base + |EncodeAll(p)|, done)
    ensures Boundary(p + t, base, early) && Boundary(p + t, base, done)
  {
    BoundaryOfTwo(p, t, base, early);
    BoundaryOfTwo(p, t, base, done);
  }

  lemma TailJumps(conjunction: bool, early: int, done: int, all: seq<Insn>, base: nat)
    requires Boundary(all, base, early) && Boundary(all, base, done)
    ensures JumpsLand([EarlyExit(conjunction, early)], all, base) &&
            JumpsLand(Tail(conjunction, early, done), all, base)
  {}

  lemma {:induction false} JumpsOfFour(x: seq<Insn>, j: seq<Insn>, y: seq<Insn>, t: seq<Insn>, all: seq<Insn>,
                                       base: nat)
    requires JumpsLand(x, all, base) && JumpsLand(j, all, base) && JumpsLand(y, all, base) && JumpsLand(t, all, base)
    ensures JumpsLand(x + j + y + t, all, base)
  {
    JumpsOfParts(x, j, all, base);
    JumpsOfParts(x + j, y, all, base);
    JumpsOfParts(x + j + y, t, all, base);
  }

  lemma {:induction false} OperandJumps(x: seq<Insn>, j: Insn, y: seq<Insn>, t: seq<Insn>, base: nat)
    requires JumpsLand(x, x, base) && JumpsLand(y, y, base + |EncodeAll(x)| + |EncodeInsn(j)|)
    ensures JumpsLand(x, x + [j] + y + t, base) && JumpsLand(y, x + [j] + y + t, base)
    ensures |EncodeAll(x + [j] + y)| == |EncodeAll(x)| + |EncodeInsn(j)| + |EncodeAll(y)|
  {
    hide JumpsLand, EncodeInsn;
    assert EncodeAll([]) == [];
    EncodeOne(j);
    EncodeTwo(x, [j]);
    EncodeTwo(x + [j], y);
    JumpsEmbed([], x, [j] + y + t, base);
    assert [] + x + ([j] + y + t) == x + [j] + y + t;
    JumpsEmbed(x + [j], y, t, base);
  }

  lemma {:induction false} JumpsOfLogical(conjunction: bool, x: seq<Insn>, y: seq<Insn>, j: Insn, t: seq<Insn>,
                                          early: nat, done: nat, base: nat)
    requires done == base + |EncodeAll(x)| + 9 + |EncodeAll(y)| + 36 && early == done - 9
    requires j == EarlyExit(conjunction, early) && t == Tail(conjunction, early, done)
    requires JumpsLand(x, x, base) && JumpsLand(y, y, base + |EncodeAll(x)| + 9)
    ensures JumpsLand(x + [j] + y + t, x + [j] + y + t, base)
  {
    var all := x + [j] + y + t;
    OperandJumps(x, j, y, t, base);
    LabelsOfTail(conjunction, early, done, done - 36);
    LabelsEmbed(x + [j] + y, t, base, early, done);
    TailJumps(conjunction, early, done, all, base);
    JumpsOfFour(x, [j], y, t, all, base);
  }

  lemma {:induction false} BinaryLands(op: BinOp, l: Node, r: Node, base: nat)
    requires JumpsLand(Assemble(l, base), Assemble(l, base), base)
    requires JumpsLand(Assemble(r, base + Size(l)), Assemble(r, base + Size(l)), base + Size(l))
    ensures JumpsLand(Assemble(Binary(op, l, r), base), Assemble(Binary(op, l, r), base), base)
  {
    SizeCounts(l, base);
    JumpsOfBinary(Assemble(l, base), Assemble(r, base + Size(l)), Insn(OpCodeOf(op), 0), base);
  }

  lemma {:induction false} LogicalLands(conjunction: bool, l: Node, r: Node, e: Node, base: nat)
    requires e == Logical(conjunction, l, r)
    requires JumpsLand(Assemble(l, base), Assemble(l, base), base)
    requires JumpsLand(Assemble(r, base + Size(l) + 9), Assemble(r, base + Size(l) + 9), base + Size(l) + 9)
    ensures JumpsLand(Assemble(e, base), Assemble(e, base), base)
  {
    var x, y, done := Assemble(l, base), Assemble(r, base + Size(l) + 9), base + Size(l) + Size(r) + 45;
    var j, t := EarlyExit(conjunction, done - 9), Tail(conjunction, done - 9, done);
    assert Assemble(e, base) == x + [j] + y + t;
    assert |EncodeAll(x)| == Size(l) by { SizeCounts(l, base); }
    assert |EncodeAll(y)| == Size(r) by { SizeCounts(r, base + Size(l) + 9); }
    JumpsOfLogical(conjunction, x, y, j, t, done - 9, done, base);
  }

  /** No jump target lies inside an instruction, and none outside the expression. */
  lemma {:induction false} EveryJumpLandsOnAnInstruction(e: Node, base: nat)
    ensures JumpsLand(Assemble(e, base), Assemble(e, base), base)
  {
    match e
    case Binary(op, l, r) =>
      EveryJumpLandsOnAnInstruction(l, base);
      EveryJumpLandsOnAnInstruction(r, base + Size(l));
      BinaryLands(op, l, r, base);
    case Logical(conjunction, l, r) =>
      EveryJumpLandsOnAnInstruction(l, base);
      EveryJumpLandsOnAnInstruction(r, base + Size(l) + 9);
      LogicalLands(conjunction, l, r, e, base);
    case _ =>
  }
}
