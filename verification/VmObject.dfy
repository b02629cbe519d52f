// The machine as the object that attic/vm.cpp operates on: a memory vector, the length of
// the loaded program and two pointers, updated in place.
module VmObject {
  import opened Words
  import opened Bytecode
  import opened VirtualMachine

  /** A fatal error ends the process; otherwise the object has become what `spec` says. */
  predicate Did(spec: Result<State>, now: State, fault: Option<Fault>)
  {
    match spec
    case Ok(t) => fault == None && now == t
    case Fail(f) => fault == Some(f)
  }

  class Vm {
    var memory: array<Byte>
    var programLength: nat
    var rip: nat
    var rsp: nat

    function Now(): State
      reads this, memory
    {
      State(memory[..], programLength, rip, rsp)
    }

    predicate Valid()
      reads this, memory
    {
      Now().Valid()
    }

    constructor ()
      ensures fresh(memory) && memory.Length == 0
    {
      memory, programLength, rip, rsp := new Byte[0], 0, 0, 0;
    }

    // ----- loading -----

    /** The stack still holds what an earlier, longer memory left there. */
    method LoadProgram(bytecode: seq<Byte>)
      requires Loadable(bytecode)
      modifies this, memory
      ensures fresh(memory) && Valid() && Now() == Loaded(old(memory[..]), bytecode)
      ensures memory.Length == PROGRAM_START + |bytecode| + STACK_SIZE
      ensures forall i :: 0 <= i < memory.Length ==>
                memory[i] == if PROGRAM_START <= i < PROGRAM_START + |bytecode| then bytecode[i - PROGRAM_START]
                             else if i < old(memory.Length) then old(memory[..])[i] else 0
    {
      programLength := |bytecode|;
      rip := PROGRAM_START;
      rsp := PROGRAM_START + |bytecode|;
      var image := Resized(memory[..], PROGRAM_START + |bytecode| + STACK_SIZE);
      memory := new Byte[|image|](i requires 0 <= i < |image| => image[i]);
      assert memory[..] == image;
      CopyIn(PROGRAM_START, bytecode);
    }

    method CopyIn(at: nat, data: seq<Byte>)
      requires at + |data| <= memory.Length
      modifies memory
      ensures memory[..] == Overwrite(old(memory[..]), at, data)
    {
      forall i | 0 <= i < |data| {
        memory[at + i] := data[i];
      }
      assert memory[..] == old(memory[..at]) + data + old(memory[at + |data|..]);
    }

    // ----- memory and stack -----

    method ReadProgram(n: nat) returns (data: seq<Byte>, fault: Option<Fault>)
      requires Valid() && n <= 8
      modifies this`rip
      ensures match Fetch(old(Now()), n)
              case Ok((bytes, t)) => fault == None && data == bytes && Now() == t
              case Fail(f) => fault == Some(f)
    {
      if rip < PROGRAM_START || (rip + n) % MODULUS > PROGRAM_START + programLength {
        return [], Some(ReadOutside);
      }
      if rip + n > memory.Length {
        return [], Some(Undefined);
      }
      data, fault := memory[rip..rip + n], None;
      rip := rip + n;
    }

    method ReadMemoryAt(address: nat, n: nat) returns (data: seq<Byte>, fault: Option<Fault>)
      requires Valid() && address < MODULUS
      ensures match ReadMemory(Now(), address, n)
              case Ok(bytes) => fault == None && data == bytes
              case Fail(f) => fault == Some(f)
    {
      if address < PROGRAM_START || (address + n) % MODULUS > PROGRAM_START + programLength + STACK_SIZE {
        return [], Some(Segfault);
      }
      if address + n > memory.Length {
        return [], Some(Undefined);
      }
      data, fault := memory[address..address + n], None;
    }

    method WriteMemoryAt(address: nat, data: seq<Byte>) returns (fault: Option<Fault>)
      requires Valid() && address < MODULUS
      modifies memory
      ensures Did(WriteMemory(old(Now()), address, data), Now(), fault)
    {
      if address < PROGRAM_START + programLength ||
        (address + |data|) % MODULUS > PROGRAM_START + programLength + STACK_SIZE {
        return Some(Segfault);
      }
      if address + |data| > memory.Length {
        return Some(Undefined);
      }
      CopyIn(address, data);
      fault := None;
    }

    method Push64(value: int) returns (fault: Option<Fault>)
      requires Valid()
      modifies this`rsp, memory
      ensures Did(Push(old(Now()), value), Now(), fault)
    {
      if (rsp + 8) % MODULUS > PROGRAM_START + programLength + STACK_SIZE {
        return Some(StackOverflow);
      }
      if rsp + 8 > memory.Length {
        return Some(Undefined);
      }
      CopyIn(rsp, Encode64(value));
      rsp := rsp + 8;
      fault := None;
    }

    method Pop64() returns (value: int, fault: Option<Fault>)
      requires Valid()
      modifies this`rsp
      ensures match Pop(old(Now()))
              case Ok((v, t)) => fault == None && value == v && Now() == t
              case Fail(f) => fault == Some(f)
    {
      if rsp < 8 || rsp - 8 < PROGRAM_START + programLength {
        return 0, Some(StackUnderflow);
      }
      if rsp > memory.Length {
        return 0, Some(Undefined);
      }
      rsp := rsp - 8;
      value, fault := Decode64(memory[rsp..rsp + 8]), None;
    }

    method StartProcCall(address: int) returns (fault: Option<Fault>)
      requires Valid()
      modifies this, memory
      ensures memory == old(memory) && Did(Started(old(Now()), address), Now(), fault)
    {
      hide Push;
      fault := Push64(programLength);
      rip := Add64(PROGRAM_START, address);
    }

    // ----- instructions -----

    method LoadRelative(n: nat, offset: int) returns (fault: Option<Fault>)
      requires Valid()
      modifies this`rsp, memory
      ensures Did(Load(old(Now()), n, offset), Now(), fault)
    {
      hide Push, ReadMemory, Add64;
      var data;
      data, fault := ReadMemoryAt(Add64(rsp, offset), n);
      if fault == None {
        fault := Push64(FromBytes(data));
      }
    }

    method StoreRelative(n: nat, offset: int) returns (fault: Option<Fault>)
      requires Valid() && n <= 8
      modifies this`rsp, memory
      ensures Did(Store(old(Now()), n, offset), Now(), fault)
    {
      hide Pop, WriteMemory, Add64, Encode64;
      var value;
      value, fault := Pop64();
      if fault == None {
        fault := WriteMemoryAt(Add64(rsp, offset), Encode64(value)[..n]);
      }
    }

    method JumpOn(onZero: bool, target: int) returns (fault: Option<Fault>)
      requires Valid()
      modifies this`rip, this`rsp
      ensures Did(JumpIf(old(Now()), onZero, target), Now(), fault)
    {
      hide Pop, Add64;
      var condition;
      condition, fault := Pop64();
      if fault == None && (condition == 0) == onZero {
        rip := Add64(PROGRAM_START, target);
      }
    }

    method CallTop() returns (fault: Option<Fault>)
      requires Valid()
      modifies this`rip, this`rsp, memory
      ensures Did(Call(old(Now())), Now(), fault)
    {
      hide Pop, Push, Add64, Wrap;
      var target;
      target, fault := Pop64();
      if fault == None {
        fault := Push64(Wrap(rip - PROGRAM_START));
        rip := Add64(PROGRAM_START, target);
      }
    }

    method ReturnFromCall() returns (fault: Option<Fault>)
      requires Valid()
      modifies this`rip, this`rsp, memory
      ensures Did(Return(old(Now())), Now(), fault)
    {
      hide Pop, Push, Add64;
      var value, address;
      value, fault := Pop64();
      if fault == None {
        address, fault := Pop64();
        if fault == None {
          fault := Push64(value);
          rip := Add64(PROGRAM_START, address);
        }
      }
    }

    /** Pop b, pop a, push a op b. */
    method BinOpCase(op: BinOp) returns (fault: Option<Fault>)
      requires Valid()
      modifies this`rsp, memory
      ensures Did(Operate(old(Now()), op), Now(), fault)
    {
      hide Pop, Push, Arithmetic;
      var a, b;
      b, fault := Pop64();
      if fault == None {
        a, fault := Pop64();
        if fault == None {
          match Arithmetic(op, a, b)
          case None => fault := Some(Undefined);
          case Some(v) => fault := Push64(v);
        }
      }
    }

    method WithArgument(op: OpCode, argument: int) returns (fault: Option<Fault>)
      requires Valid() && ReadsArgument(op)
      modifies this`rip, this`rsp, memory
      ensures Did(Execute(old(Now()), op, argument), Now(), fault)
    {
      hide Push, Load, Store, JumpIf, Call, Return, Operate, Add64;
      if op == PUSHC {
        fault := Push64(argument);
      } else if op == LOADR1 {
        fault := LoadRelative(1, argument);
      } else if op == LOADR2 {
        fault := LoadRelative(2, argument);
      } else if op == LOADR4 {
        fault := LoadRelative(4, argument);
      } else if op == LOADR8 {
        fault := LoadRelative(8, argument);
      } else if op == STORER1 {
        fault := StoreRelative(1, argument);
      } else if op == STORER2 {
        fault := StoreRelative(2, argument);
      } else if op == STORER4 {
        fault := StoreRelative(4, argument);
      } else if op == STORER8 {
        fault := StoreRelative(8, argument);
      } else if op == ADDRSP {
        rsp := Add64(rsp, argument);
        fault := None;
      } else if op == JMP {
        rip := Add64(PROGRAM_START, argument);
        fault := None;
      } else if op == JMP0 {
        fault := JumpOn(true, argument);
      } else {
        fault := JumpOn(false, argument);
      }
    }

    /** Calls, returns and operators; any other opcode is not implemented. */
    method WithoutArgument(op: OpCode) returns (fault: Option<Fault>)
      requires Valid() && !ReadsArgument(op)
      modifies this`rip, this`rsp, memory
      ensures if Implemented(op) then Did(Execute(old(Now()), op, 0), Now(), fault) else fault == Some(Unimplemented)
    {
      hide Call, Return, Operate;
      if op == CALL {
        fault := CallTop();
      } else if op == RET {
        fault := ReturnFromCall();
      } else if op == ADD {
        fault := BinOpCase(Add);
      } else if op == SUB {
        fault := BinOpCase(Sub);
      } else if op == MUL {
        fault := BinOpCase(Mul);
      } else if op == DIV {
        fault := BinOpCase(Div);
      } else if op == MOD {
        fault := BinOpCase(BinOp.Mod);
      } else if op == BITAND {
        fault := BinOpCase(BitAnd);
      } else if op == BITOR {
        fault := BinOpCase(BitOr);
      } else if op == BITXOR {
        fault := BinOpCase(BitXor);
      } else if op == RSH {
        fault := BinOpCase(Shr);
      } else if op == LSH {
        fault := BinOpCase(Shl);
      } else if op == CMPEQ {
        fault := BinOpCase(Eq);
      } else if op == CMPNE {
        fault := BinOpCase(Ne);
      } else if op == CMPGE {
        fault := BinOpCase(Ge);
      } else if op == CMPGT {
        fault := BinOpCase(Gt);
      } else if op == CMPLE {
        fault := BinOpCase(Le);
      } else if op == CMPLT {
        fault := BinOpCase(Lt);
      } else {
        fault := Some(Unimplemented);
      }
    }

    method StepOnce() returns (fault: Option<Fault>)
      requires Valid()
      modifies this`rip, this`rsp, memory
      ensures Did(Step(old(Now())), Now(), fault)
    {
      hide Fetch, Execute, Decode64;
      var bytes;
      bytes, fault := ReadProgram(1);
      if fault == None {
        var op := bytes[0];
        if op == PUSHC || op == LOADR1 || op == LOADR2 || op == LOADR4 || op == LOADR8 || op == STORER1 ||
          op == STORER2 || op == STORER4 || op == STORER8 || op == ADDRSP || op == JMP || op == JMP0 || op == JMP1 {
          bytes, fault := ReadProgram(8);
          if fault == None {
            fault := WithArgument(op, Decode64(bytes));
          }
        } else {
          fault := WithoutArgument(op);
        }
      }
    }

    /** The interpreter loop, cut off after `rounds` rounds if it has not stopped by then. */
    method RunProgram(rounds: nat) returns (stopped: bool, fault: Option<Fault>)
      requires Valid()
      modifies this`rip, this`rsp, memory
      ensures match Run(old(Now()), rounds)
              case Running(t) => !stopped && fault == None && Now() == t
              case Finished(t) => stopped && fault == None && Now() == t
              case Faulted(f) => stopped && fault == Some(f)
    {
      hide Step;
      var k := 0;
      while k < rounds && rip < PROGRAM_START + programLength
        invariant 0 <= k <= rounds && Valid() && Run(old(Now()), rounds) == Run(Now(), rounds - k)
      {
        fault := StepOnce();
        if fault != None {
          return true, fault;
        }
        k := k + 1;
      }
      if k == rounds {
        return false, None;
      }
      if rip != PROGRAM_START + programLength {
        return true, Some(NotAtEnd);
      }
      return true, None;
    }
  }
}
