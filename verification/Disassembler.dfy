// Cutting bytes into instructions (attic/disasm.cpp).
module Disassembler {
  import opened Words
  import opened Bytecode

  datatype Instruction = Instruction(address: nat, op: OpCode, argument: Option<int>)

  /** The instructions from `rip` on; None where the program ends inside an instruction. */
  function Listing(program: seq<Byte>, rip: nat): Option<seq<Instruction>>
    requires rip <= |program|
    decreases |program| - rip
  {
    if rip == |program| then Some([]) else
    var op := program[rip];
    if HasArgument(op) then
      if rip + 9 > |program| then None else
      match Listing(program, rip + 9)
      case None => None
      case Some(rest) => Some([Instruction(rip, op, Some(Decode64(program[rip + 1..rip + 9])))] + rest)
    else
      match Listing(program, rip + 1)
      case None => None
      case Some(rest) => Some([Instruction(rip, op, None)] + rest)
  }

  /** What has been decoded before `rip` and what follows from there make up the whole listing. */
  predicate Continues(program: seq<Byte>, rip: nat, instructions: seq<Instruction>)
    requires rip <= |program|
  {
    match Listing(program, rip)
    case None => Listing(program, 0).None?
    case Some(rest) => Listing(program, 0) == Some(instructions + rest)
  }

  lemma {:induction false} OneMore(program: seq<Byte>, rip: nat, instructions: seq<Instruction>, next: Instruction)
    requires rip < |program| && Continues(program, rip, instructions)
    requires rip + Width(program[rip]) <= |program| && next.address == rip && next.op == program[rip]
    requires next.argument == if HasArgument(next.op) then Some(Decode64(program[rip + 1..rip + 9])) else None
    ensures Continues(program, rip + Width(program[rip]), instructions + [next])
  {
    hide HasArgument, Decode64;
    var end := rip + Width(program[rip]);
    if Listing(program, end).Some? {
      var rest := Listing(program, end).value;
      assert instructions + ([next] + rest) == instructions + [next] + rest;
    }
  }

  /** The decoding loop. It fails where the program ends inside an instruction. */
  method Disassemble(program: seq<Byte>) returns (instructions: seq<Instruction>, ok: bool)
    ensures ok <==> Listing(program, 0).Some?
    ensures ok ==> instructions == Listing(program, 0).value
  {
    hide HasArgument, Decode64;
    instructions, ok := [], true;
    var rip := 0;
    assert Listing(program, 0).Some? ==> [] + Listing(program, 0).value == Listing(program, 0).value;
    while rip < |program|
      invariant 0 <= rip <= |program|
      invariant Continues(program, rip, instructions)
    {
      var address, op := rip, program[rip];
      rip := rip + 1;
      var argument := None;
      if HasArgument(op) {
        if rip + 8 > |program| {
          return [], false;
        }
        argument := Some(Decode64(program[rip..rip + 8]));
        rip := rip + 8;
      }
      OneMore(program, address, instructions, Instruction(address, op, argument));
      instructions := instructions + [Instruction(address, op, argument)];
    }
    assert instructions + [] == instructions;
  }

  /** The instructions as written, with the addresses at which they start. */
  function Placed(ins: seq<Insn>, address: nat): seq<Instruction>
  {
    if ins == [] then [] else
      [Instruction(address, ins[0].op, if HasArgument(ins[0].op) then Some(ins[0].argument) else None)]
      + Placed(ins[1..], address + Width(ins[0].op))
  }

  /** Decoding inverts encoding, whatever precedes. */
  lemma {:induction false} ListingRecoversCode(prefix: seq<Byte>, ins: seq<Insn>)
    requires forall i :: 0 <= i < |ins| ==> IsInt64(ins[i].argument)
    ensures Listing(prefix + EncodeAll(ins), |prefix|) == Some(Placed(ins, |prefix|))
    decreases ins
  {
    hide ToBytes;
    if ins != [] {
      var program := prefix + EncodeAll(ins);
      var first := EncodeInsn(ins[0]);
      assert program == (prefix + first) + EncodeAll(ins[1..]);
      ListingRecoversCode(prefix + first, ins[1..]);
      assert program[|prefix|] == first[0] == ins[0].op;
      if HasArgument(ins[0].op) {
        assert program[|prefix| + 1..|prefix| + 9] == Encode64(ins[0].argument);
        WordRoundTrip(ins[0].argument);
      }
    } else {
      assert EncodeAll(ins) == [];
    }
  }

  /** What a disassembly says was written. */
  function Written(listing: seq<Instruction>): seq<Insn>
  {
    if listing == [] then [] else
      [Insn(listing[0].op, if listing[0].argument.Some? then listing[0].argument.value else 0)] + Written(listing[1..])
  }

  /** A listing accounts for every byte of the program it was made from. */
  lemma {:induction false} ListingLosesNothing(program: seq<Byte>, rip: nat)
    requires rip <= |program| && Listing(program, rip).Some?
    ensures EncodeAll(Written(Listing(program, rip).value)) == program[rip..]
    decreases |program| - rip
  {
    if rip < |program| {
      var op := program[rip];
      var listing := Listing(program, rip).value;
      var next := rip + Width(op);
      ListingLosesNothing(program, next);
      assert listing[1..] == Listing(program, next).value;
      if HasArgument(op) {
        WordDetermined(program[rip + 1..next]);
      }
      assert EncodeInsn(Written(listing)[0]) == program[rip..next];
      assert Written(listing)[1..] == Written(listing[1..]);
      assert program[rip..] == program[rip..next] + program[next..];
    }
  }
}
