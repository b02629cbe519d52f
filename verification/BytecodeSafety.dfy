// What follows for whole programs: the stack that suffices, a complete call, and what
// every run of a well-laid-out program keeps.
module BytecodeSafety {
  import opened Words
  import opened Bytecode
  import opened Disassembler
  import opened Assembler
  import opened VirtualMachine
  import opened BytecodeRuns

  // ----- stack need -----

  lemma {:induction false} PeakWithinNeed(e: Node)
    requires Supported(e)
    ensures Peak(e) <= Need(e)
  {
    match e
    case Literal(_) =>
    case Binary(_, l, r) =>
      PeakWithinNeed(l);
      PeakWithinNeed(r);
    case Logical(_, l, r) =>
      PeakWithinNeed(l);
      PeakWithinNeed(r);
  }

  /** Without short-circuit operators, and where every operation has an answer, all that the
      tree needs is really used. */
  predicate Strict(e: Node)
  {
    e.Literal? || (e.Binary? && Strict(e.lhs) && Strict(e.rhs))
  }

  lemma {:induction false} PeakIsNeed(e: Node)
    requires Supported(e) && Strict(e) && Value(e).Some?
    ensures Peak(e) == Need(e)
  {
    if e.Binary? {
      PeakIsNeed(e.lhs);
      PeakIsNeed(e.rhs);
    }
  }

  /** The need is not always used: a decided operator skips its right operand. */
  lemma SkippedOperandNeedsNoStack()
    ensures var e := Logical(true, Literal(0), Binary(Add, Literal(1), Literal(1)));
            Supported(e) && Peak(e) == 1 && Need(e) == 2
  {}

  predicate StackFault(st: Status) { st == Faulted(StackOverflow) || st == Faulted(StackUnderflow) }

  /** Until its outcome is reached, a run is still running. */
  lemma {:induction false} NoFaultOnTheWay(s: State, j: nat, k: nat)
    requires s.Valid() && j <= k && StackFault(Run(s, j))
    ensures Run(s, k) == Run(s, j)
  {
    hide Run;
    RunStops(s, j, k);
  }

  /** After k rounds the expression has come to its outcome. That is a stack fault exactly if
      the evaluated part needs more slots than are free, and then it is an overflow; otherwise
      no round up to there ends in a stack fault. Room for the whole tree always suffices. */
  lemma {:induction false} StackFaultsExactlyWhenTooDeep(s: State, e: Node, a: nat) returns (k: nat)
    requires Ready(s, e, a)
    ensures Behaves(s, e, a, Run(s, k))
    ensures Peak(e) > Free(s) <==> exists j: nat :: j <= k && StackFault(Run(s, j))
    ensures Peak(e) > Free(s) ==> Run(s, k) == Faulted(StackOverflow)
    ensures Need(e) <= Free(s) ==> forall j: nat :: j <= k ==> !StackFault(Run(s, j))
  {
    hide Run, Pushed, At;
    k := ExpressionRuns(s, e, a);
    PeakWithinNeed(e);
    if j: nat :| j <= k && StackFault(Run(s, j)) {
      NoFaultOnTheWay(s, j, k);
    }
  }

  // ----- a complete call -----

  /** An expression as the body of a procedure at address 0. */
  function ProcedureBytes(e: Node): seq<Byte> { CodeBytes(e, 0) + [RET] }

  /** The machine stops at the end of the program with v alone on the stack. */
  predicate Returned(st: Status, v: int)
  {
    && st.Finished?
    && InStack(st.final)
    && st.final.rip == st.final.End()
    && st.final.rsp == st.final.End() + 8
    && st.final.memory[st.final.End()..st.final.rsp] == Encode64(v)
  }

  lemma LoadedHolds(m: seq<Byte>, program: seq<Byte>)
    requires Loadable(program)
    ensures InStack(Loaded(m, program)) && At(Loaded(m, program), 0, program) && Free(Loaded(m, program)) == 8192
  {
    var s := Loaded(m, program);
    assert s.memory[PROGRAM_START..PROGRAM_START + |program|] == program;
  }

  lemma {:induction false} ReturnRuns(s: State, a: nat, v: int, target: nat)
    requires Top(s, v) && Top(s.(rsp := s.rsp - 8), target) && s.rip == PROGRAM_START + a && At(s, a, [RET]) &&
             target <= s.length
    ensures PushedAt(s.(rsp := s.rsp - 16), Run(s, 1), v, target)
  {
    hide Step, Run, Push, Pop, Encode64;
    StepFetches(s, a, Insn(RET, 0));
    var s0 := s.(rip := s.rip + 1);
    OneRound(s);
    PopRuns(s0, v);
    PopRuns(s0.(rsp := s.rsp - 8), target);
    PushRuns(s0.(rsp := s.rsp - 16), v);
  }

  lemma StopsAtEnd(s: State)
    requires s.Valid() && s.rip == s.End()
    ensures Run(s, 1) == Finished(s)
  {}

  lemma {:induction false} StartRuns(m: seq<Byte>, program: seq<Byte>) returns (s: State)
    requires Loadable(program)
    ensures Started(Loaded(m, program), 0) == Ok(s) && Pushed(Loaded(m, program), s, |program|) &&
            s.rip == PROGRAM_START
  {
    hide Push;
    LoadedHolds(m, program);
    PushRuns(Loaded(m, program), |program|);
    s := Started(Loaded(m, program), 0).value;
  }

  /** Loading, calling and running a compiled expression: the process ends with the value
      as the only thing on the stack unless the evaluation needs more than 8191 slots or
      has no answer, whatever the memory held before. */
  lemma {:induction false} CallingACompiledExpression(m: seq<Byte>, e: Node) returns (s: State, k: nat)
    requires Supported(e) && LiteralsFit(e) && Loadable(ProcedureBytes(e))
    ensures Started(Loaded(m, ProcedureBytes(e)), 0) == Ok(s) && s.Valid()
    ensures Peak(e) > 8191 ==> Run(s, k) == Faulted(StackOverflow)
    ensures Peak(e) <= 8191 && Value(e).None? ==> Run(s, k) == Faulted(Undefined)
    ensures Peak(e) <= 8191 && Value(e).Some? ==> Returned(Run(s, k), Value(e).value)
  {
    hide Run, At, CodeBytes, Encode64, Loaded, Started;
    var program := ProcedureBytes(e);
    var s0 := Loaded(m, program);
    LoadedHolds(m, program);
    s := StartRuns(m, program);
    SizeCounts(e, 0);
    AtParts(s0, 0, CodeBytes(e, 0), [RET]);
    ReadyAgain(s0, s, e, 0);
    var k1 := ExpressionRuns(s, e, 0);
    k := k1;
    if Peak(e) <= 8191 && Value(e).Some? {
      ValueFits(e);
      var k2 := ReturningRuns(s0, s, Run(s, k1).s, Value(e).value, Size(e));
      RunAdds(s, k1, k2);
      k := k1 + k2;
    }
  }

  lemma {:induction false} ReturningRuns(s0: State, s: State, t: State, v: int, a: nat) returns (k: nat)
    requires InStack(s0) && s0.rsp == s0.End() && Pushed(s0, s, s0.length) && Pushed(s, t, v) && At(s0, a, [RET])
    requires t.rip == PROGRAM_START + a && IsInt64(v)
    ensures Returned(Run(t, k), v)
  {
    hide Run, Encode64;
    AtSurvives(s0, s, a, [RET]);
    AtSurvives(s, t, a, [RET]);
    assert t.memory[..s.rsp][s0.rsp..s.rsp] == t.memory[s0.rsp..s.rsp];
    ReturnRuns(t, a, v, s0.length);
    var u := Run(t, 1).s;
    StopsAtEnd(u);
    RunAdds(t, 1, 1);
    k := 2;
  }

  // ----- what every run keeps -----

  /** Instructions whose next address is known from the listing, and which leave the stack
      pointer to push and pop. */
  predicate Tame(op: OpCode) { Implemented(op) && op != CALL && op != RET && op != ADDRSP }

  /** The program bytes are untouched and the stack pointer is inside the stack. */
  predicate Keeps(s: State, t: State)
    requires s.Valid()
  {
    InStack(t) && t.length == s.length && t.memory[..s.End()] == s.memory[..s.End()]
  }

  lemma PushKeeps(s: State, v: int)
    requires InStack(s) && Push(s, v).Ok?
    ensures Keeps(s, Push(s, v).value) && Push(s, v).value.rip == s.rip
  {
    hide Encode64;
    assert Push(s, v).value.memory[..s.End()] == s.memory[..s.End()];
  }

  lemma PopKeeps(s: State)
    requires InStack(s) && Pop(s).Ok?
    ensures Keeps(s, Pop(s).value.1) && Pop(s).value.1.rip == s.rip
  {
    hide Decode64;
  }

  lemma LoadKeeps(s: State, n: nat, offset: int)
    requires InStack(s) && Load(s, n, offset).Ok?
    ensures Keeps(s, Load(s, n, offset).value) && Load(s, n, offset).value.rip == s.rip
  {
    hide Push, FromBytes;
    var data := ReadMemory(s, Add64(s.rsp, offset), n).value;
    PushKeeps(s, FromBytes(data));
  }

  lemma StoreKeeps(s: State, n: nat, offset: int)
    requires InStack(s) && n <= 8 && Store(s, n, offset).Ok?
    ensures Keeps(s, Store(s, n, offset).value) && Store(s, n, offset).value.rip == s.rip
  {
    hide Pop, Encode64;
    PopKeeps(s);
    var t := Store(s, n, offset).value;
    assert t.memory[..s.End()] == s.memory[..s.End()];
  }

  lemma OperateKeeps(s: State, op: BinOp)
    requires InStack(s) && Operate(s, op).Ok?
    ensures Keeps(s, Operate(s, op).value) && Operate(s, op).value.rip == s.rip
  {
    hide Pop, Push, Arithmetic;
    PopKeeps(s);
    var (b, s1) := Pop(s).value;
    PopKeeps(s1);
    var (a, s2) := Pop(s1).value;
    PushKeeps(s2, Arithmetic(op, a, b).value);
  }

  lemma JumpIfKeeps(s: State, onZero: bool, target: int)
    requires InStack(s) && JumpIf(s, onZero, target).Ok?
    ensures Keeps(s, JumpIf(s, onZero, target).value)
    ensures JumpIf(s, onZero, target).value.rip in {s.rip, Add64(PROGRAM_START, target)}
  {
    hide Pop;
    PopKeeps(s);
  }

  /** One instruction: the program and the stack bounds stay, and only jumps leave the line. */
  lemma {:induction false} ExecuteKeeps(s: State, op: OpCode, argument: int)
    requires InStack(s) && Tame(op) && Execute(s, op, argument).Ok?
    ensures var t := Execute(s, op, argument).value;
            Keeps(s, t) && (t.rip == s.rip || (IsJump(op) && t.rip == Add64(PROGRAM_START, argument)))
  {
    hide Push, Load, Store, Operate, JumpIf, Operator, Add64;
    if op == PUSHC {
      PushKeeps(s, argument);
    } else if LOADR1 <= op <= LOADR8 {
      LoadKeeps(s, AccessWidth(op - LOADR1), argument);
    } else if STORER1 <= op <= STORER8 {
      StoreKeeps(s, AccessWidth(op - STORER1), argument);
    } else if op == JMP0 {
      JumpIfKeeps(s, true, argument);
    } else if op == JMP1 {
      JumpIfKeeps(s, false, argument);
    } else if op != JMP {
      OperateKeeps(s, Operator(op).value);
    }
  }

  lemma ExecuteFaults(s: State, op: OpCode, argument: int)
    requires InStack(s) && Tame(op) && Execute(s, op, argument).Fail?
    ensures Execute(s, op, argument).fault in {StackOverflow, StackUnderflow, Segfault, Undefined}
  {
    hide Arithmetic, Encode64, Decode64, Add64, FromBytes;
  }

  /** The loaded program is this list of instructions, its jumps go to instructions, and
      none of them takes its next address from the stack or moves the stack pointer. */
  predicate LaidOut(s: State, code: seq<Insn>)
  {
    && s.Valid()
    && |EncodeAll(code)| == s.length
    && At(s, 0, EncodeAll(code))
    && (forall i :: 0 <= i < |code| ==> Tame(code[i].op) && IsInt64(code[i].argument))
    && JumpsLand(code, code, 0)
  }

  /** The machine is between two instructions of the program. */
  predicate BetweenInstructions(s: State, code: seq<Insn>)
  {
    InStack(s) && PROGRAM_START <= s.rip && Boundary(code, 0, s.rip - PROGRAM_START)
  }

  lemma {:induction false} BoundaryInside(code: seq<Insn>, base: nat, a: int)
    requires Boundary(code, base, a)
    ensures base <= a <= base + |EncodeAll(code)|
    decreases code
  {
    if a != base {
      BoundaryInside(code[1..], base + Width(code[0].op), a);
    }
  }

  lemma BoundaryAtStart(code: seq<Insn>, base: nat)
    ensures Boundary(code, base, base)
  {}

  /** At every boundary but the last an instruction of the list starts. */
  lemma {:induction false} InstructionAt(code: seq<Insn>, base: nat, a: int) returns (i: nat)
    requires Boundary(code, base, a) && base <= a < base + |EncodeAll(code)|
    ensures i < |code| && a - base + Width(code[i].op) <= |EncodeAll(code)|
    ensures EncodeAll(code)[a - base..a - base + Width(code[i].op)] == EncodeInsn(code[i])
    ensures Boundary(code, base, a + Width(code[i].op))
    decreases code
  {
    hide EncodeInsn, EncodeAll, Width;
    FirstBytes(code);
    var first, rest := EncodeInsn(code[0]), EncodeAll(code[1..]);
    if a == base {
      i := 0;
      BoundaryAtStart(code[1..], a + Width(code[0].op));
      assert (first + rest)[0..|first|] == first;
    } else {
      BoundaryInside(code[1..], base + |first|, a);
      var j := InstructionAt(code[1..], base + |first|, a);
      i := j + 1;
      SliceBehind(first, rest, a - base - |first|, Width(code[1..][j].op));
    }
  }

  lemma FirstBytes(code: seq<Insn>)
    requires |EncodeAll(code)| > 0
    ensures code != [] && EncodeAll(code) == EncodeInsn(code[0]) + EncodeAll(code[1..])
    ensures |EncodeInsn(code[0])| == Width(code[0].op) > 0
  {}

  lemma SliceBehind(first: seq<Byte>, rest: seq<Byte>, k: nat, w: nat)
    requires k + w <= |rest|
    ensures (first + rest)[|first| + k..|first| + k + w] == rest[k..k + w]
  {}

  /** What a round may do to a laid-out program. */
  predicate RoundKeeps(s: State, code: seq<Insn>, st: Status)
    requires s.Valid()
  {
    match st
    case Running(t) => LaidOut(t, code) && BetweenInstructions(t, code) && Keeps(s, t)
    case Finished(t) => Keeps(s, t) && t.rip == t.End()
    case Faulted(f) => f in {StackOverflow, StackUnderflow, Segfault, Undefined}
  }

  lemma {:induction false} StaysLaidOut(s: State, t: State, code: seq<Insn>)
    requires LaidOut(s, code) && Keeps(s, t)
    ensures LaidOut(t, code)
  {
    var n := |EncodeAll(code)|;
    assert t.memory[..s.End()][PROGRAM_START..PROGRAM_START + n] == t.memory[PROGRAM_START..PROGRAM_START + n];
    assert s.memory[..s.End()][PROGRAM_START..PROGRAM_START + n] == s.memory[PROGRAM_START..PROGRAM_START + n];
  }

  lemma {:induction false} OneRoundKeeps(s: State, code: seq<Insn>)
    requires LaidOut(s, code) && BetweenInstructions(s, code)
    ensures RoundKeeps(s, code, Round(s))
  {
    hide Execute, Step, EncodeInsn, At;
    var a := s.rip - PROGRAM_START;
    BoundaryInside(code, 0, a);
    if s.rip < s.End() {
      var i := InstructionAt(code, 0, a);
      var insn := code[i];
      InsideOf(s, EncodeAll(code), a, Width(insn.op));
      StepFetches(s, a, insn);
      var s0 := s.(rip := s.rip + Width(insn.op));
      var argument := if HasArgument(insn.op) then insn.argument else 0;
      if Execute(s0, insn.op, argument).Ok? {
        ExecuteKeeps(s0, insn.op, argument);
        var t := Execute(s0, insn.op, argument).value;
        StaysLaidOut(s, t, code);
        if t.rip != s0.rip {
          BoundaryInside(code, 0, insn.argument);
        }
      } else {
        ExecuteFaults(s0, insn.op, argument);
      }
    }
  }

  lemma InsideOf(s: State, bytes: seq<Byte>, a: nat, n: nat)
    requires s.Valid() && At(s, 0, bytes) && a + n <= |bytes|
    ensures At(s, a, bytes[a..a + n])
  {
    var m := s.memory[PROGRAM_START..PROGRAM_START + |bytes|];
    assert m[a..a + n] == s.memory[PROGRAM_START + a..PROGRAM_START + a + n];
  }

  /** Every run of a laid-out program: it only ever fetches whole instructions of the list,
      never overwrites them, keeps the stack pointer inside the stack, and if it stops of
      itself it does so at the end of the program. */
  lemma {:induction false} EveryRunStaysOnInstructions(s: State, code: seq<Insn>, rounds: nat)
    requires LaidOut(s, code) && BetweenInstructions(s, code)
    ensures RoundKeeps(s, code, Run(s, rounds))
    decreases rounds
  {
    hide Round, LaidOut, BetweenInstructions;
    LaidOutIsValid(s, code);
    if rounds > 0 {
      OneRoundKeeps(s, code);
      if Round(s).Running? {
        var t := Round(s).s;
        EveryRunStaysOnInstructions(t, code, rounds - 1);
        KeepsOn(s, t, Run(t, rounds - 1), code);
      }
    }
  }

  lemma LaidOutIsValid(s: State, code: seq<Insn>)
    requires LaidOut(s, code) && BetweenInstructions(s, code)
    ensures InStack(s)
  {}

  lemma KeepsOn(s: State, t: State, st: Status, code: seq<Insn>)
    requires s.Valid() && Keeps(s, t) && RoundKeeps(t, code, st)
    ensures RoundKeeps(s, code, st)
  {
    hide LaidOut, BetweenInstructions;
  }

  // ----- the disassembler cuts at the same places -----

  lemma {:induction false} ListedAreBoundaries(code: seq<Insn>, base: nat, i: nat)
    requires i < |Placed(code, base)|
    ensures i < |code| && Boundary(code, base, Placed(code, base)[i].address)
    ensures base <= Placed(code, base)[i].address < base + |EncodeAll(code)|
    decreases code
  {
    hide EncodeInsn;
    FirstBytes(code);
    if i > 0 {
      ListedAreBoundaries(code[1..], base + Width(code[0].op), i - 1);
    }
  }

  lemma {:induction false} BoundariesAreListed(code: seq<Insn>, base: nat, a: int) returns (i: nat)
    requires Boundary(code, base, a) && a != base + |EncodeAll(code)|
    ensures i < |Placed(code, base)| && Placed(code, base)[i].address == a
    decreases code
  {
    if a == base {
      i := 0;
    } else {
      var j := BoundariesAreListed(code[1..], base + Width(code[0].op), a);
      i := j + 1;
    }
  }

  /** The disassembly has a line for exactly the addresses at which instructions start. */
  lemma {:induction false} LinesAreTheInstructions(code: seq<Insn>, a: int)
    ensures (exists i :: 0 <= i < |Placed(code, 0)| && Placed(code, 0)[i].address == a)
            <==> Boundary(code, 0, a) && a != |EncodeAll(code)|
  {
    hide EncodeAll, Boundary;
    if i :| 0 <= i < |Placed(code, 0)| && Placed(code, 0)[i].address == a {
      ListedAreBoundaries(code, 0, i);
    }
    if Boundary(code, 0, a) && a != |EncodeAll(code)| {
      var i := BoundariesAreListed(code, 0, a);
      assert Placed(code, 0)[i].address == a;
    }
  }

  /** A run of a laid-out program is at an address for which the disassembly has a line, unless
      it is at its end, for which there is none. */
  lemma {:induction false} EveryFetchIsInTheListing(s: State, code: seq<Insn>, rounds: nat)
    requires LaidOut(s, code) && BetweenInstructions(s, code) && Run(s, rounds).Running?
    ensures var t := Run(s, rounds).s;
            var listing := Listing(EncodeAll(code), 0);
            listing == Some(Placed(code, 0))
            && (t.rip != t.End() <==>
                  exists i :: 0 <= i < |listing.value| && listing.value[i].address == t.rip - PROGRAM_START)
  {
    hide Run;
    EveryRunStaysOnInstructions(s, code, rounds);
    var t := Run(s, rounds).s;
    assert [] + EncodeAll(code) == EncodeAll(code);
    ListingRecoversCode([], code);
    LinesAreTheInstructions(code, t.rip - PROGRAM_START);
  }

  lemma {:induction false} AssembledIsTame(e: Node, base: nat)
    requires Supported(e) && LiteralsFit(e) && base + Size(e) < HALF
    ensures AllTame(Assemble(e, base))
  {
    hide AllTame, HALF;
    match e
    case Literal(v) => TameOne(PUSHC, v);
    case Binary(op, l, r) =>
      AssembledIsTame(l, base);
      AssembledIsTame(r, base + Size(l));
      TameOne(OpCodeOf(op), 0);
      TameTwo(Assemble(l, base), Assemble(r, base + Size(l)));
      TameTwo(Assemble(l, base) + Assemble(r, base + Size(l)), [Insn(OpCodeOf(op), 0)]);
    case Logical(conjunction, l, r) =>
      AssembledIsTame(l, base);
      AssembledIsTame(r, base + Size(l) + 9);
      var done := base + Size(e);
      var j, t := EarlyExit(conjunction, done - 9), Tail(conjunction, done - 9, done);
      TailIsTame(conjunction, done - 9, done);
      TameTwo(Assemble(l, base), [j]);
      TameTwo(Assemble(l, base) + [j], Assemble(r, base + Size(l) + 9));
      TameTwo(Assemble(l, base) + [j] + Assemble(r, base + Size(l) + 9), t);
  }

  predicate AllTame(ins: seq<Insn>)
  {
    forall i :: 0 <= i < |ins| ==> Tame(ins[i].op) && IsInt64(ins[i].argument)
  }

  lemma TameOne(op: OpCode, v: int)
    requires Tame(op) && IsInt64(v)
    ensures AllTame([Insn(op, v)])
  {}

  lemma TameTwo(a: seq<Insn>, b: seq<Insn>)
    requires AllTame(a) && AllTame(b)
    ensures AllTame(a + b)
  {}

  lemma TailIsTame(conjunction: bool, early: int, done: int)
    requires IsInt64(early) && IsInt64(done)
    ensures AllTame([EarlyExit(conjunction, early)]) && AllTame(Tail(conjunction, early, done))
  {}

  /** The generator's own output is such a program. */
  lemma {:induction false} CompiledExpressionsAreLaidOut(m: seq<Byte>, e: Node)
    requires Supported(e) && LiteralsFit(e) && Loadable(CodeBytes(e, 0))
    ensures LaidOut(Loaded(m, CodeBytes(e, 0)), Assemble(e, 0))
    ensures BetweenInstructions(Loaded(m, CodeBytes(e, 0)), Assemble(e, 0))
  {
    hide At, Assemble, Tame;
    SizeCounts(e, 0);
    AssembledIsTame(e, 0);
    EveryJumpLandsOnAnInstruction(e, 0);
    LoadedHolds(m, CodeBytes(e, 0));
    BoundaryAtStart(Assemble(e, 0), 0);
  }
}
