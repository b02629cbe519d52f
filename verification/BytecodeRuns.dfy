// Expression code on the stack machine, down to bytes: what a run does from any state.
module BytecodeRuns {
  import opened Words
  import opened Bytecode
  import opened Assembler
  import opened VirtualMachine
  import opened MachineArithmetic

  /** The value of an expression tree; None where the evaluation meets an operation that has
      no answer. The right operand of a short-circuit operator is only evaluated if needed. */
  function Value(e: Node): Option<int>
    requires Supported(e)
  {
    match e
    case Literal(v) => Some(v)
    case Binary(op, l, r) =>
      (match (Value(l), Value(r))
       case (Some(a), Some(b)) => Answer(op, a, b)
       case _ => None)
    case Logical(conjunction, l, r) =>
      match Value(l)
      case None => None
      case Some(a) =>
        if (a == 0) == conjunction then Some(BoolWord(!conjunction)) else
        match Value(r)
        case None => None
        case Some(b) => Some(BoolWord(b != 0))
  }

  function Max(a: nat, b: nat): nat { if a >= b then a else b }

  /** The stack slots that the part of the tree that is evaluated needs. */
  function Peak(e: Node): (r: nat)
    requires Supported(e)
    ensures r >= 1
  {
    match e
    case Literal(_) => 1
    case Binary(_, l, r) => if Value(l).None? then Peak(l) else Max(Peak(l), 1 + Peak(r))
    case Logical(conjunction, l, r) =>
      if Value(l).None? || (Value(l).value == 0) == conjunction then Peak(l) else Max(Peak(l), Peak(r))
  }

  /** The stack slots that the tree needs whatever is evaluated. */
  function Need(e: Node): (r: nat)
    requires Supported(e)
    ensures r >= 1
  {
    match e
    case Literal(_) => 1
    case Binary(_, l, r) => Max(Need(l), 1 + Need(r))
    case Logical(_, l, r) => Max(Need(l), Need(r))
  }

  lemma {:induction false} ValueFits(e: Node)
    requires Supported(e) && LiteralsFit(e) && Value(e).Some?
    ensures IsInt64(Value(e).value)
  {
    hide Answer;
    match e
    case Binary(op, l, r) => AnswerFits(op, Value(l).value, Value(r).value);
    case _ =>
  }

  // ----- what a state holds -----

  /** The bytes `code` are at address `a` of the loaded program. */
  predicate At(s: State, a: nat, code: seq<Byte>)
    requires s.Valid()
  {
    a + |code| <= s.length && s.memory[PROGRAM_START + a..PROGRAM_START + a + |code|] == code
  }

  lemma AtParts(s: State, a: nat, x: seq<Byte>, y: seq<Byte>)
    requires s.Valid() && At(s, a, x + y)
    ensures At(s, a, x) && At(s, a + |x|, y)
  {
    var m := s.memory[PROGRAM_START + a..PROGRAM_START + a + |x + y|];
    assert m[..|x|] == x && m[|x|..] == y;
  }

  predicate InStack(s: State) { s.Valid() && s.End() <= s.rsp <= s.StackEnd() }

  function Free(s: State): nat
    requires InStack(s)
  {
    (s.StackEnd() - s.rsp) / 8
  }

  /** t is s with v pushed: nothing below changed. */
  predicate Pushed(s: State, t: State, v: int)
    requires s.Valid()
  {
    && InStack(t)
    && t.length == s.length
    && t.rsp == s.rsp + 8
    && t.memory[..s.rsp] == s.memory[..s.rsp]
    && t.memory[s.rsp..t.rsp] == Encode64(v)
  }

  /** t is s where only the unused part of the stack may differ. */
  predicate SameStack(s: State, t: State)
    requires s.Valid()
  {
    t.Valid() && t.length == s.length && t.rsp == s.rsp && s.rsp <= |s.memory| && t.memory[..s.rsp] == s.memory[..s.rsp]
  }

  /** The word on top of the stack. */
  predicate Top(s: State, v: int)
  {
    InStack(s) && s.rsp - 8 >= s.End() && IsInt64(v) && s.memory[s.rsp - 8..s.rsp] == Encode64(v)
  }

  lemma PushedTop(s: State, t: State, v: int)
    requires InStack(s) && Pushed(s, t, v) && IsInt64(v)
    ensures Top(t, v)
    ensures forall r: int :: SameStack(s, t.(rsp := s.rsp, rip := r % MODULUS))
    ensures Free(t) == Free(s) - 1
  {}

  lemma AtSurvives(s: State, t: State, a: nat, code: seq<Byte>)
    requires InStack(s) && t.Valid() && t.length == s.length && t.memory[..s.rsp] == s.memory[..s.rsp] && At(s, a, code)
    ensures At(t, a, code)
  {
    assert t.memory[..s.rsp][PROGRAM_START + a..PROGRAM_START + a + |code|] ==
      t.memory[PROGRAM_START + a..PROGRAM_START + a + |code|];
    assert s.memory[..s.rsp][PROGRAM_START + a..PROGRAM_START + a + |code|] ==
      s.memory[PROGRAM_START + a..PROGRAM_START + a + |code|];
  }

  lemma PushedLater(s: State, t: State, u: State, v: int)
    requires s.Valid() && SameStack(s, t) && Pushed(t, u, v)
    ensures Pushed(s, u, v)
  {}

  // ----- single instructions -----

  /** The machine reads an argument exactly where the disassembler expects one. */
  lemma ArgumentsAreExpected(op: OpCode)
    requires Implemented(op)
    ensures ReadsArgument(op) <==> HasArgument(op)
  {}

  /** The machine fetches the instruction that was encoded at its address, and its next
      fetch is at the next one. */
  lemma {:induction false} StepFetches(s: State, a: nat, i: Insn)
    requires s.Valid() && s.rip == PROGRAM_START + a && At(s, a, EncodeInsn(i)) && Implemented(i.op) &&
             IsInt64(i.argument)
    ensures Step(s) == Execute(s.(rip := s.rip + Width(i.op)), i.op, if HasArgument(i.op) then i.argument else 0)
    ensures s.rip < s.End()
  {
    hide Execute, Encode64, Decode64, ReadsArgument;
    ArgumentsAreExpected(i.op);
    var code := EncodeInsn(i);
    var m := s.memory[s.rip..s.rip + |code|];
    assert m == code;
    assert code[0] == i.op;
    assert s.memory[s.rip] == m[0];
    assert s.memory[s.rip..s.rip + 1] == [i.op];
    if HasArgument(i.op) {
      assert m[1..] == Encode64(i.argument);
      assert s.memory[s.rip + 1..s.rip + 9] == m[1..];
      WordRoundTrip(i.argument);
    }
  }

  lemma PushRuns(s: State, v: int)
    requires InStack(s)
    ensures Free(s) == 0 ==> Push(s, v) == Fail(StackOverflow)
    ensures Free(s) >= 1 ==> Push(s, v).Ok? && Pushed(s, Push(s, v).value, v) && Push(s, v).value.rip == s.rip
  {
    hide Encode64;
    if Free(s) >= 1 {
      var t := Push(s, v).value;
      assert t.memory[..s.rsp] == s.memory[..s.rsp];
      assert t.memory[s.rsp..t.rsp] == Encode64(v);
    }
  }

  lemma PopRuns(s: State, v: int)
    requires Top(s, v)
    ensures Pop(s) == Ok((v, s.(rsp := s.rsp - 8)))
  {
    hide Encode64, Decode64;
    WordRoundTrip(v);
  }

  lemma OneRound(s: State)
    requires s.Valid() && s.rip < s.End()
    ensures Step(s).Ok? ==> Run(s, 1) == Running(Step(s).value)
    ensures Step(s).Fail? ==> Run(s, 1) == Faulted(Step(s).fault)
  {
    hide Step;
    if Step(s).Ok? {
      assert Run(Step(s).value, 0) == Running(Step(s).value);
    }
  }

  lemma {:induction false} PushcRuns(s: State, a: nat, v: int)
    requires InStack(s) && s.rip == PROGRAM_START + a && At(s, a, Op64(PUSHC, v)) && IsInt64(v)
    ensures Free(s) == 0 ==> Run(s, 1) == Faulted(StackOverflow)
    ensures Free(s) >= 1 ==> Run(s, 1).Running? && Pushed(s, Run(s, 1).s, v) && Run(s, 1).s.rip == s.rip + 9
  {
    hide Step, Run, Push, Op64;
    StepFetches(s, a, Insn(PUSHC, v));
    OneRound(s);
    PushRuns(s.(rip := s.rip + 9), v);
  }

  lemma {:induction false} ExitRuns(s: State, a: nat, conjunction: bool, target: nat, v: int)
    requires s.rip == PROGRAM_START + a && Top(s, v) && target <= s.length
    requires At(s, a, EncodeInsn(EarlyExit(conjunction, target)))
    ensures Run(s, 1) == Running(s.(rsp := s.rsp - 8,
                                    rip := if (v == 0) == conjunction then PROGRAM_START + target else s.rip + 9))
  {
    hide Step, Run, Pop, Op64, Encode64;
    StepFetches(s, a, EarlyExit(conjunction, target));
    OneRound(s);
    PopRuns(s.(rip := s.rip + 9), v);
  }

  lemma {:induction false} JumpRuns(s: State, a: nat, target: nat)
    requires InStack(s) && s.rip == PROGRAM_START + a && target <= s.length && At(s, a, Op64(JMP, target))
    ensures Run(s, 1) == Running(s.(rip := PROGRAM_START + target))
  {
    hide Step, Run, Op64;
    StepFetches(s, a, Insn(JMP, target));
    OneRound(s);
  }

  /** s with v pushed and the instruction pointer at address a of the program. */
  predicate PushedAt(s: State, st: Status, v: int, a: nat)
    requires s.Valid()
  {
    st.Running? && Pushed(s, st.s, v) && st.s.rip == PROGRAM_START + a
  }

  lemma OperatorOfOpCode(op: BinOp)
    ensures Implemented(OpCodeOf(op)) && !HasArgument(OpCodeOf(op)) && Operator(OpCodeOf(op)) == Some(op)
  {}

  lemma ExecuteOperator(s: State, op: BinOp)
    requires s.Valid() && Implemented(OpCodeOf(op))
    ensures Execute(s, OpCodeOf(op), 0) == Operate(s, op)
  {
    hide Operate;
    OperatorOfOpCode(op);
  }

  lemma {:induction false} OperateRuns(s: State, a: nat, op: BinOp, x: int, y: int)
    requires s.rip == PROGRAM_START + a && Top(s, y) && Top(s.(rsp := s.rsp - 8), x) && At(s, a, [OpCodeOf(op)])
    ensures Answer(op, x, y).None? ==> Run(s, 1) == Faulted(Undefined)
    ensures Answer(op, x, y).Some? ==> PushedAt(s.(rsp := s.rsp - 16), Run(s, 1), Answer(op, x, y).value, a + 1)
  {
    hide Step, Run, Push, Pop, Encode64, Arithmetic, Answer, OpCodeOf, Operator, Execute;
    ArithmeticIsMeant(op, x, y);
    OperatorOfOpCode(op);
    StepFetches(s, a, Insn(OpCodeOf(op), 0));
    var s0 := s.(rip := s.rip + 1);
    ExecuteOperator(s0, op);
    OneRound(s);
    PopRuns(s0, y);
    PopRuns(s0.(rsp := s.rsp - 8), x);
    if Answer(op, x, y).Some? {
      PushRuns(s0.(rsp := s.rsp - 16), Answer(op, x, y).value);
    }
  }

  // ----- expressions -----

  /** What the code of e, placed at address a, must have done. */
  predicate Behaves(s: State, e: Node, a: nat, st: Status)
    requires InStack(s) && Supported(e)
  {
    if Peak(e) > Free(s) then st == Faulted(StackOverflow)
    else if Value(e).None? then st == Faulted(Undefined)
    else PushedAt(s, st, Value(e).value, a + Size(e))
  }

  predicate Ready(s: State, e: Node, a: nat)
  {
    InStack(s) && Supported(e) && LiteralsFit(e) && s.rip == PROGRAM_START + a && At(s, a, CodeBytes(e, a))
  }

  lemma {:induction false} BinaryRuns(s: State, op: BinOp, l: Node, r: Node, a: nat, t: State, u: State)
    requires InStack(s) && Supported(l) && Supported(r) && LiteralsFit(l) && LiteralsFit(r)
    requires At(s, a + Size(l) + Size(r), [OpCodeOf(op)])
    requires Value(l).Some? && Pushed(s, t, Value(l).value)
    requires Value(r).Some? && Pushed(t, u, Value(r).value) && u.rip == PROGRAM_START + a + Size(l) + Size(r)
    requires Peak(Binary(op, l, r)) <= Free(s)
    ensures Behaves(s, Binary(op, l, r), a, Run(u, 1))
  {
    hide Run, Encode64, Answer, OpCodeOf, Peak, LiteralsFit, Supported;
    var x, y := Value(l).value, Value(r).value;
    ValueFits(l);
    ValueFits(r);
    PushedTop(s, t, x);
    PushedTop(t, u, y);
    assert u.memory[..t.rsp][s.rsp..t.rsp] == u.memory[s.rsp..t.rsp];
    assert Top(u.(rsp := u.rsp - 8), x);
    AtSurvives(s, t, a + Size(l) + Size(r), [OpCodeOf(op)]);
    AtSurvives(t, u, a + Size(l) + Size(r), [OpCodeOf(op)]);
    OperateRuns(u, a + Size(l) + Size(r), op, x, y);
    assert SameStack(s, u.(rsp := u.rsp - 16)) by {
      assert u.memory[..t.rsp][..s.rsp] == u.memory[..s.rsp];
    }
    if Answer(op, x, y).Some? {
      PushedLater(s, u.(rsp := u.rsp - 16), Run(u, 1).s, Answer(op, x, y).value);
    }
  }

  /** After an operand: the conditional jump takes its value off the stack again. */
  lemma {:induction false} DecideRuns(s: State, t: State, conjunction: bool, v: int, a: nat, target: nat)
    requires InStack(s) && Pushed(s, t, v) && IsInt64(v) && t.rip == PROGRAM_START + a && target <= s.length
    requires At(s, a, EncodeInsn(EarlyExit(conjunction, target)))
    ensures Run(t, 1).Running? && SameStack(s, Run(t, 1).s)
    ensures Run(t, 1).s.rip == PROGRAM_START + (if (v == 0) == conjunction then target else a + 9)
  {
    hide Run, Encode64;
    AtSurvives(s, t, a, EncodeInsn(EarlyExit(conjunction, target)));
    PushedTop(s, t, v);
    ExitRuns(t, a, conjunction, target, v);
  }

  lemma {:induction false} ConstantRuns(s: State, t: State, v: int, a: nat)
    requires InStack(s) && SameStack(s, t) && Free(s) >= 1 && t.rip == PROGRAM_START + a && IsInt64(v) &&
             At(s, a, Op64(PUSHC, v))
    ensures PushedAt(s, Run(t, 1), v, a + 9)
  {
    hide Run, Op64, Encode64;
    AtSurvives(s, t, a, Op64(PUSHC, v));
    PushcRuns(t, a, v);
    PushedLater(s, t, Run(t, 1).s, v);
  }

  /** The operands did not decide: the constant behind them, and the jump over the other. */
  lemma {:induction false} UndecidedRuns(s: State, t: State, v: int, a: nat, done: nat)
    requires InStack(s) && SameStack(s, t) && Free(s) >= 1 && t.rip == PROGRAM_START + a && IsInt64(v) &&
             done <= s.length
    requires At(s, a, Op64(PUSHC, v)) && At(s, a + 9, Op64(JMP, done))
    ensures PushedAt(s, Run(t, 2), v, done)
  {
    hide Run, Op64, Encode64;
    ConstantRuns(s, t, v, a);
    var u := Run(t, 1).s;
    AtSurvives(s, u, a + 9, Op64(JMP, done));
    JumpRuns(u, a + 9, done);
    RunAdds(t, 1, 1);
  }

  /** The parts of the code of a short-circuit operator are where the labels say. */
  lemma {:induction false} LogicalParts(s: State, conjunction: bool, l: Node, r: Node, a: nat, mid: nat, done: nat)
    requires s.Valid() && At(s, a, CodeBytes(Logical(conjunction, l, r), a))
    requires mid == a + Size(l) + 9 && done == mid + Size(r) + 36
    ensures At(s, a, CodeBytes(l, a)) && At(s, mid - 9, EncodeInsn(EarlyExit(conjunction, done - 9)))
    ensures At(s, mid, CodeBytes(r, mid)) && At(s, done - 36, EncodeInsn(EarlyExit(conjunction, done - 9)))
    ensures At(s, done - 27, Op64(PUSHC, BoolWord(conjunction))) && At(s, done - 18, Op64(JMP, done))
    ensures At(s, done - 9, Op64(PUSHC, BoolWord(!conjunction))) && done <= s.length
  {
    hide At, CodeBytes, Op64, Size;
    BytesOfLogical(conjunction, l, r, a);
    SizeCounts(l, a);
    SizeCounts(r, mid);
    var x, j, y := CodeBytes(l, a), Op64(if conjunction then JMP0 else JMP1, done - 9), CodeBytes(r, mid);
    FourParts(s, a, x, j, y, TailBytes(conjunction, done - 9, done));
    var p, q, w := Op64(PUSHC, BoolWord(conjunction)), Op64(JMP, done), Op64(PUSHC, BoolWord(!conjunction));
    FourParts(s, done - 36, j, p, q, w);
    EndsInside(s, done - 9, w);
  }

  lemma FourParts(s: State, a: nat, w: seq<Byte>, x: seq<Byte>, y: seq<Byte>, z: seq<Byte>)
    requires s.Valid() && At(s, a, w + x + y + z)
    ensures At(s, a, w) && At(s, a + |w|, x) && At(s, a + |w| + |x|, y) && At(s, a + |w| + |x| + |y|, z)
  {
    hide At;
    AtParts(s, a, w + x + y, z);
    AtParts(s, a, w + x, y);
    AtParts(s, a, w, x);
  }

  lemma EndsInside(s: State, a: nat, code: seq<Byte>)
    requires s.Valid() && At(s, a, code)
    ensures a + |code| <= s.length
  {}

  lemma {:induction false} BinaryParts(s: State, op: BinOp, l: Node, r: Node, a: nat)
    requires s.Valid() && At(s, a, CodeBytes(Binary(op, l, r), a))
    ensures At(s, a, CodeBytes(l, a)) && At(s, a + Size(l), CodeBytes(r, a + Size(l)))
    ensures At(s, a + Size(l) + Size(r), [OpCodeOf(op)])
  {
    hide At, CodeBytes, Size;
    BytesOfBinary(op, l, r, a);
    SizeCounts(l, a);
    SizeCounts(r, a + Size(l));
    AtParts(s, a, CodeBytes(l, a) + CodeBytes(r, a + Size(l)), [OpCodeOf(op)]);
    AtParts(s, a, CodeBytes(l, a), CodeBytes(r, a + Size(l)));
  }

  /** From any state at its first byte, the code of an expression overflows the stack if
      the evaluated part needs more slots than are free, stops at an operation without an
      answer if it meets one, and otherwise ends exactly behind its last byte with the
      value pushed and everything below unchanged. */
  lemma {:induction false} ExpressionRuns(s: State, e: Node, a: nat) returns (k: nat)
    requires Ready(s, e, a)
    ensures Behaves(s, e, a, Run(s, k))
    decreases e, 1
  {
    hide At, CodeBytes, Run, Pushed, Encode64, Answer, OpCodeOf;
    match e
    case Literal(v) =>
      BytesOfLiteral(v, a);
      PushcRuns(s, a, v);
      k := 1;
    case Binary(op, l, r) => k := ExpressionRunsBinary(s, op, l, r, a);
    case Logical(conjunction, l, r) => k := ExpressionRunsLogical(s, conjunction, l, r, a);
  }

  lemma {:induction false} ReadyAgain(s: State, t: State, e: Node, a: nat)
    requires InStack(s) && InStack(t) && t.length == s.length && s.rsp <= t.rsp &&
             t.memory[..s.rsp] == s.memory[..s.rsp]
    requires t.rip == PROGRAM_START + a && Supported(e) && LiteralsFit(e) && At(s, a, CodeBytes(e, a))
    ensures Ready(t, e, a)
  {
    hide CodeBytes, At;
    AtSurvives(s, t, a, CodeBytes(e, a));
  }

  lemma {:induction false} ExpressionRunsBinary(s: State, op: BinOp, l: Node, r: Node, a: nat) returns (k: nat)
    requires Ready(s, Binary(op, l, r), a)
    ensures Behaves(s, Binary(op, l, r), a, Run(s, k))
    decreases Binary(op, l, r), 0
  {
    hide At, CodeBytes, Run, Encode64, Answer, OpCodeOf;
    BinaryParts(s, op, l, r, a);
    var k1 := ExpressionRuns(s, l, a);
    if Peak(l) > Free(s) || Value(l).None? {
      return k1;
    }
    var t := Run(s, k1).s;
    ReadyAgain(s, t, r, a + Size(l));
    var k2 := ExpressionRuns(t, r, a + Size(l));
    RunAdds(s, k1, k2);
    if Peak(r) > Free(t) || Value(r).None? {
      return k1 + k2;
    }
    var u := Run(t, k2).s;
    BinaryRuns(s, op, l, r, a, t, u);
    RunAdds(s, k1 + k2, 1);
    k := k1 + k2 + 1;
  }

  lemma {:induction false} ExpressionRunsLogical(s: State, conjunction: bool, l: Node, r: Node, a: nat) returns (k: nat)
    requires Ready(s, Logical(conjunction, l, r), a)
    ensures Behaves(s, Logical(conjunction, l, r), a, Run(s, k))
    decreases Logical(conjunction, l, r), 0
  {
    hide At, CodeBytes, Run, Encode64, Op64, EarlyExit;
    var mid := a + Size(l) + 9;
    var done := mid + Size(r) + 36;
    LogicalParts(s, conjunction, l, r, a, mid, done);
    var k1 := ExpressionRuns(s, l, a);
    if Peak(l) > Free(s) || Value(l).None? {
      return k1;
    }
    ValueFits(l);
    var t := Run(s, k1).s;
    DecideRuns(s, t, conjunction, Value(l).value, mid - 9, done - 9);
    RunAdds(s, k1, 1);
    var t' := Run(t, 1).s;
    if (Value(l).value == 0) == conjunction {
      ConstantRuns(s, t', BoolWord(!conjunction), done - 9);
      RunAdds(s, k1 + 1, 1);
      return k1 + 2;
    }
    var k2 := RightRuns(s, t', conjunction, r, mid, done);
    RunAdds(s, k1 + 1, k2);
    k := k1 + 1 + k2;
  }

  /** What a short-circuit operator comes to when its left operand did not decide. */
  predicate RightBehaves(s: State, r: Node, done: nat, st: Status)
    requires InStack(s) && Supported(r)
  {
    if Peak(r) > Free(s) then st == Faulted(StackOverflow)
    else if Value(r).None? then st == Faulted(Undefined)
    else PushedAt(s, st, BoolWord(Value(r).value != 0), done)
  }

  lemma {:induction false} RightRuns(s: State, t: State, conjunction: bool, r: Node, mid: nat, done: nat)
    returns (k: nat)
    requires InStack(s) && SameStack(s, t) && Supported(r) && LiteralsFit(r) && t.rip == PROGRAM_START + mid
    requires done == mid + Size(r) + 36 && done <= s.length
    requires At(s, mid, CodeBytes(r, mid)) && At(s, done - 36, EncodeInsn(EarlyExit(conjunction, done - 9)))
    requires At(s, done - 27, Op64(PUSHC, BoolWord(conjunction))) && At(s, done - 18, Op64(JMP, done))
    requires At(s, done - 9, Op64(PUSHC, BoolWord(!conjunction)))
    ensures RightBehaves(s, r, done, Run(t, k))
    decreases r, 2
  {
    hide At, CodeBytes, Run, Encode64, Op64, EarlyExit;
    ReadyAgain(s, t, r, mid);
    var k2 := ExpressionRuns(t, r, mid);
    if Peak(r) > Free(s) || Value(r).None? {
      return k2;
    }
    ValueFits(r);
    var u := Run(t, k2).s;
    PushedLater(s, t, u, Value(r).value);
    DecideRuns(s, u, conjunction, Value(r).value, done - 36, done - 9);
    RunAdds(t, k2, 1);
    var u' := Run(u, 1).s;
    if (Value(r).value == 0) == conjunction {
      ConstantRuns(s, u', BoolWord(!conjunction), done - 9);
      RunAdds(t, k2 + 1, 1);
      return k2 + 2;
    }
    UndecidedRuns(s, u', BoolWord(conjunction), done - 27, done);
    RunAdds(t, k2 + 1, 2);
    k := k2 + 3;
  }
}
