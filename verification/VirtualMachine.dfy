// The stack machine (attic/vm.cpp): what each operation does to memory, the instruction
// pointer and the stack pointer, as functions of its state.
module VirtualMachine {
  import opened Words
  import opened Bytecode

  const PROGRAM_START: nat := 1024
  const STACK_SIZE: nat := 65536

  /** What ends the process: the machine's own fatal errors, and operations that C++ leaves
      undefined (division by zero, oversized shifts, access outside the memory vector). */
  datatype Fault = ReadOutside | Segfault | StackOverflow | StackUnderflow | Unimplemented | NotAtEnd | Undefined

  datatype Result<+T> = Ok(value: T) | Fail(fault: Fault)

  /** Memory is 1024 bytes of padding, the program, the stack. The two pointers are kept as
      the unsigned words that every comparison converts them to. */
  datatype State = State(memory: seq<Byte>, length: nat, rip: nat, rsp: nat)
  {
    function End(): nat { PROGRAM_START + length }

    function StackEnd(): nat { End() + STACK_SIZE }

    predicate Valid() { |memory| == StackEnd() < HALF && rip < MODULUS && rsp < MODULUS }
  }

  function Overwrite(m: seq<Byte>, at: nat, data: seq<Byte>): (r: seq<Byte>)
    requires at + |data| <= |m|
    ensures |r| == |m|
  {
    m[..at] + data + m[at + |data|..]
  }

  /** Addition of unsigned words. */
  function Add64(a: int, b: int): (r: nat)
    ensures r < MODULUS
  {
    (a + b) % MODULUS
  }

  // ----- memory and stack -----

  function Fetch(s: State, n: nat): (r: Result<(seq<Byte>, State)>)
    requires s.Valid() && n <= 8
    ensures r.Ok? ==> |r.value.0| == n && r.value.1.Valid() && r.value.1.length == s.length
  {
    if s.rip < PROGRAM_START || Add64(s.rip, n) > s.End() then Fail(ReadOutside)
    else if s.rip + n > |s.memory| then Fail(Undefined)
    else Ok((s.memory[s.rip..s.rip + n], s.(rip := s.rip + n)))
  }

  function ReadMemory(s: State, address: nat, n: nat): (r: Result<seq<Byte>>)
    requires s.Valid() && address < MODULUS
    ensures r.Ok? ==> |r.value| == n
  {
    if address < PROGRAM_START || Add64(address, n) > s.StackEnd() then Fail(Segfault)
    else if address + n > |s.memory| then Fail(Undefined)
    else Ok(s.memory[address..address + n])
  }

  function WriteMemory(s: State, address: nat, data: seq<Byte>): (r: Result<State>)
    requires s.Valid() && address < MODULUS
    ensures r.Ok? ==> r.value.Valid() && r.value.length == s.length
  {
    if address < s.End() || Add64(address, |data|) > s.StackEnd() then Fail(Segfault)
    else if address + |data| > |s.memory| then Fail(Undefined)
    else Ok(s.(memory := Overwrite(s.memory, address, data)))
  }

  function Push(s: State, v: int): (r: Result<State>)
    requires s.Valid()
    ensures r.Ok? ==> r.value.Valid() && r.value.length == s.length
  {
    if Add64(s.rsp, 8) > s.StackEnd() then Fail(StackOverflow)
    else if s.rsp + 8 > |s.memory| then Fail(Undefined)
    else Ok(s.(memory := Overwrite(s.memory, s.rsp, Encode64(v)), rsp := s.rsp + 8))
  }

  function Pop(s: State): (r: Result<(int, State)>)
    requires s.Valid()
    ensures r.Ok? ==> r.value.1.Valid() && r.value.1.length == s.length
  {
    if s.rsp < 8 || s.rsp - 8 < s.End() then Fail(StackUnderflow)
    else if s.rsp > |s.memory| then Fail(Undefined)
    else Ok((Decode64(s.memory[s.rsp - 8..s.rsp]), s.(rsp := s.rsp - 8)))
  }

  // ----- arithmetic -----

  /** Signed 64-bit arithmetic. Overflow wraps around; None where C++ has no answer. */
  function Arithmetic(op: BinOp, a: int, b: int): Option<int>
  {
    match op
    case Mul => Some(Wrap(a * b))
    case Add => Some(Wrap(a + b))
    case Sub => Some(Wrap(a - b))
    case Div => if b == 0 || (a == -HALF && b == -1) then None else Some(Wrap(TruncDiv(a, b)))
    case Mod => if b == 0 || (a == -HALF && b == -1) then None else Some(Wrap(TruncMod(a, b)))
    case BitAnd => Some(Wrap(BitOp(And, a % MODULUS, b % MODULUS, 64)))
    case BitOr => Some(Wrap(BitOp(Or, a % MODULUS, b % MODULUS, 64)))
    case BitXor => Some(Wrap(BitOp(Xor, a % MODULUS, b % MODULUS, 64)))
    case Shl => if 0 <= b < 64 then Some(Wrap(a * Pow2(b))) else None
    case Shr => if 0 <= b < 64 then Some(Wrap(a / Pow2(b))) else None
    case _ => Some(BoolWord(Compare(op, a, b)))
  }

  /** The operator a machine instruction applies. */
  function Operator(op: OpCode): Option<BinOp>
  {
    if op == MUL then Some(Mul) else if op == DIV then Some(Div) else if op == MOD then Some(Mod)
    else if op == ADD then Some(Add) else if op == SUB then Some(Sub)
    else if op == BITAND then Some(BitAnd) else if op == BITOR then Some(BitOr) else if op == BITXOR then Some(BitXor)
    else if op == LSH then Some(Shl) else if op == RSH then Some(Shr)
    else if op == CMPEQ then Some(Eq) else if op == CMPNE then Some(Ne) else if op == CMPGE then Some(Ge)
    else if op == CMPGT then Some(Gt) else if op == CMPLE then Some(Le) else if op == CMPLT then Some(Lt)
    else None
  }

  function Operate(s: State, op: BinOp): (r: Result<State>)
    requires s.Valid()
    ensures r.Ok? ==> r.value.Valid() && r.value.length == s.length
  {
    match Pop(s)
    case Fail(f) => Fail(f)
    case Ok((b, s1)) =>
      match Pop(s1)
      case Fail(f) => Fail(f)
      case Ok((a, s2)) =>
        match Arithmetic(op, a, b)
        case None => Fail(Undefined)
        case Some(v) => Push(s2, v)
  }

  // ----- instructions -----

  function Jump(s: State, target: int): State { s.(rip := Add64(PROGRAM_START, target)) }

  function JumpIf(s: State, onZero: bool, target: int): (r: Result<State>)
    requires s.Valid()
    ensures r.Ok? ==> r.value.Valid() && r.value.length == s.length
  {
    match Pop(s)
    case Fail(f) => Fail(f)
    case Ok((v, s1)) => Ok(if (v == 0) == onZero then Jump(s1, target) else s1)
  }

  function Call(s: State): (r: Result<State>)
    requires s.Valid()
    ensures r.Ok? ==> r.value.Valid() && r.value.length == s.length
  {
    match Pop(s)
    case Fail(f) => Fail(f)
    case Ok((target, s1)) =>
      match Push(s1, Wrap(s1.rip - PROGRAM_START))
      case Fail(f) => Fail(f)
      case Ok(s2) => Ok(Jump(s2, target))
  }

  function Return(s: State): (r: Result<State>)
    requires s.Valid()
    ensures r.Ok? ==> r.value.Valid() && r.value.length == s.length
  {
    match Pop(s)
    case Fail(f) => Fail(f)
    case Ok((value, s1)) =>
      match Pop(s1)
      case Fail(f) => Fail(f)
      case Ok((address, s2)) =>
        match Push(s2, value)
        case Fail(f) => Fail(f)
        case Ok(s3) => Ok(Jump(s3, address))
  }

  /** The widths 1, 2, 4, 8 of LOADR1..LOADR8 and STORER1..STORER8. */
  function AccessWidth(k: nat): nat { if k == 0 then 1 else if k == 1 then 2 else if k == 2 then 4 else 8 }

  function Load(s: State, n: nat, offset: int): (r: Result<State>)
    requires s.Valid()
    ensures r.Ok? ==> r.value.Valid() && r.value.length == s.length
  {
    match ReadMemory(s, Add64(s.rsp, offset), n)
    case Fail(f) => Fail(f)
    case Ok(data) => Push(s, FromBytes(data))
  }

  function Store(s: State, n: nat, offset: int): (r: Result<State>)
    requires s.Valid() && n <= 8
    ensures r.Ok? ==> r.value.Valid() && r.value.length == s.length
  {
    match Pop(s)
    case Fail(f) => Fail(f)
    case Ok((v, s1)) => WriteMemory(s1, Add64(s1.rsp, offset), Encode64(v)[..n])
  }

  function Execute(s: State, op: OpCode, argument: int): (r: Result<State>)
    requires s.Valid() && Implemented(op)
    ensures r.Ok? ==> r.value.Valid() && r.value.length == s.length
  {
    if op == PUSHC then Push(s, argument)
    else if LOADR1 <= op <= LOADR8 then Load(s, AccessWidth(op - LOADR1), argument)
    else if STORER1 <= op <= STORER8 then Store(s, AccessWidth(op - STORER1), argument)
    else if op == ADDRSP then Ok(s.(rsp := Add64(s.rsp, argument)))
    else if op == JMP then Ok(Jump(s, argument))
    else if op == JMP0 then JumpIf(s, true, argument)
    else if op == JMP1 then JumpIf(s, false, argument)
    else if op == CALL then Call(s)
    else if op == RET then Return(s)
    else match Operator(op)
      case Some(o) => Operate(s, o)
      case None => assert false; Fail(Unimplemented)
  }

  /** The cases of the interpreter that read a 64-bit argument. */
  predicate ReadsArgument(op: OpCode)
  {
    op in {PUSHC, LOADR1, LOADR2, LOADR4, LOADR8, STORER1, STORER2, STORER4, STORER8, ADDRSP, JMP, JMP0, JMP1}
  }

  function Step(s: State): (r: Result<State>)
    requires s.Valid()
    ensures r.Ok? ==> r.value.Valid() && r.value.length == s.length
  {
    match Fetch(s, 1)
    case Fail(f) => Fail(f)
    case Ok((bytes, s1)) =>
      var op := bytes[0];
      if !Implemented(op) then Fail(Unimplemented)
      else if !ReadsArgument(op) then Execute(s1, op, 0)
      else
        match Fetch(s1, 8)
        case Fail(f) => Fail(f)
        case Ok((data, s2)) => Execute(s2, op, Decode64(data))
  }

  // ----- runs -----

  datatype Status = Running(s: State) | Finished(final: State) | Faulted(fault: Fault)

  /** One round of the interpreter loop. */
  function Round(s: State): (r: Status)
    requires s.Valid()
    ensures r.Running? ==> r.s.Valid()
  {
    if s.rip < s.End() then
      match Step(s)
      case Ok(t) => Running(t)
      case Fail(f) => Faulted(f)
    else if s.rip == s.End() then Finished(s)
    else Faulted(NotAtEnd)
  }

  function Run(s: State, rounds: nat): (r: Status)
    requires s.Valid()
    ensures r.Running? ==> r.s.Valid()
    decreases rounds
  {
    if rounds == 0 then Running(s) else
    match Round(s)
    case Running(t) => Run(t, rounds - 1)
    case stopped => stopped
  }

  lemma {:induction false} RunAdds(s: State, j: nat, k: nat)
    requires s.Valid() && Run(s, j).Running?
    ensures Run(s, j + k) == Run(Run(s, j).s, k)
    decreases j
  {
    hide Step;
    if j > 0 {
      RunAdds(Round(s).s, j - 1, k);
    }
  }

  lemma {:induction false} RunStops(s: State, j: nat, k: nat)
    requires s.Valid() && !Run(s, j).Running? && j <= k
    ensures Run(s, k) == Run(s, j)
    decreases j
  {
    hide Step;
    if Round(s).Running? {
      RunStops(Round(s).s, j - 1, k - 1);
    }
  }

  /** Loading: a larger memory, zero where it is new, with the program behind the padding. */
  function Resized(m: seq<Byte>, n: nat): (r: seq<Byte>)
    ensures |r| == n
  {
    if n <= |m| then m[..n] else m + seq(n - |m|, _ => 0)
  }

  predicate Loadable(program: seq<Byte>) { PROGRAM_START + |program| + STACK_SIZE < HALF }

  function Loaded(m: seq<Byte>, program: seq<Byte>): (s: State)
    requires Loadable(program)
    ensures s.Valid() && s.length == |program| && s.rip == PROGRAM_START && s.rsp == s.End()
  {
    State(Overwrite(Resized(m, PROGRAM_START + |program| + STACK_SIZE), PROGRAM_START, program), |program|,
          PROGRAM_START, PROGRAM_START + |program|)
  }

  /** Calling the procedure at `address`, to return to the end of the program. */
  function Started(s: State, address: int): (r: Result<State>)
    requires s.Valid()
    ensures r.Ok? ==> r.value.Valid()
  {
    match Push(s, s.length)
    case Fail(f) => Fail(f)
    case Ok(t) => Ok(Jump(t, address))
  }
}
