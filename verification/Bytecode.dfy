// The instruction set of the stack machine (attic/op_code.h) and its byte encoding.
module Bytecode {
  import opened Words

  type Byte = x: int | 0 <= x < 256

  type OpCode = Byte

  const PUSHC: OpCode := 0
  const LOADR1: OpCode := 1
  const LOADR2: OpCode := 2
  const LOADR4: OpCode := 3
  const LOADR8: OpCode := 4
  const LOAD1: OpCode := 5
  const LOAD8: OpCode := 8
  const STORER1: OpCode := 9
  const STORER2: OpCode := 10
  const STORER4: OpCode := 11
  const STORER8: OpCode := 12
  const ADDRSP: OpCode := 13
  const ADD: OpCode := 14
  const SUB: OpCode := 15
  const MUL: OpCode := 16
  const DIV: OpCode := 17
  const MOD: OpCode := 18
  const BITAND: OpCode := 19
  const BITOR: OpCode := 20
  const BITXOR: OpCode := 21
  const LSH: OpCode := 22
  const RSH: OpCode := 23
  const CMPEQ: OpCode := 24
  const CMPNE: OpCode := 25
  const CMPLT: OpCode := 26
  const CMPLE: OpCode := 27
  const CMPGT: OpCode := 28
  const CMPGE: OpCode := 29
  const JMP0: OpCode := 30
  const JMP1: OpCode := 31
  const JMP: OpCode := 32
  const CALL: OpCode := 33
  const RET: OpCode := 34

  /** The opcodes that carry a 64-bit argument, as the disassembler tests it. */
  predicate HasArgument(op: OpCode)
  {
    op == PUSHC || LOADR1 <= op <= LOADR8 || STORER1 <= op <= STORER8 || op == ADDRSP || op == JMP0 || op == JMP1 ||
      op == JMP
  }

  /** The opcodes the machine implements; LOAD1 to LOAD8 are declared but not implemented. */
  predicate Implemented(op: OpCode) { op <= RET && !(LOAD1 <= op <= LOAD8) }

  // ----- little-endian numbers -----

  function Pow256(n: nat): (r: int)
    ensures r > 0
  {
    if n == 0 then 1 else 256 * Pow256(n - 1)
  }

  function ToBytes(u: int, n: nat): (r: seq<Byte>)
    ensures |r| == n
    decreases n, u
  {
    if n == 0 then [] else [u % 256] + ToBytes(u / 256, n - 1)
  }

  function FromBytes(bs: seq<Byte>): int
  {
    if bs == [] then 0 else bs[0] + 256 * FromBytes(bs[1..])
  }

  lemma {:induction false} BytesRoundTrip(u: int, n: nat)
    ensures FromBytes(ToBytes(u, n)) == u % Pow256(n)
    decreases n
  {
    if n > 0 {
      BytesRoundTrip(u / 256, n - 1);
      assert ToBytes(u, n)[1..] == ToBytes(u / 256, n - 1);
      LowestByte(u, Pow256(n - 1));
    }
  }

  lemma {:induction false} LowestByte(u: int, m: int)
    requires m > 0
    ensures u % (256 * m) == u % 256 + 256 * ((u / 256) % m)
  {
    var q := u / 256;
    assert q == (q / m) * m + q % m;
    assert (q / m) * (256 * m) == 256 * ((q / m) * m);
    ModUnique(u, 256 * m, q / m, 256 * (q % m) + u % 256);
  }

  // ----- 64-bit words -----

  const MODULUS: int := 0x1_0000_0000_0000_0000
  const HALF: int := 0x8000_0000_0000_0000

  lemma EightBytesHoldAWord()
    ensures Pow256(8) == MODULUS
  {}

  predicate IsInt64(v: int) { -HALF <= v < HALF }

  /** The signed 64-bit number congruent to v. */
  function Wrap(v: int): int
  {
    var u := v % MODULUS;
    if u >= HALF then u - MODULUS else u
  }

  lemma WrapInRange(v: int)
    ensures IsInt64(Wrap(v)) && Wrap(v) % MODULUS == v % MODULUS
    ensures IsInt64(v) ==> Wrap(v) == v
  {}

  function Encode64(v: int): (r: seq<Byte>)
    ensures |r| == 8
  {
    ToBytes(v % MODULUS, 8)
  }

  function Decode64(bs: seq<Byte>): int { Wrap(FromBytes(bs)) }

  lemma {:induction false} WordRoundTrip(v: int)
    requires IsInt64(v)
    ensures Decode64(Encode64(v)) == v
  {
    BytesRoundTrip(v % MODULUS, 8);
    EightBytesHoldAWord();
    WrapInRange(v);
    WrapInRange(v % MODULUS);
  }

  lemma {:induction false} BytesDetermined(bs: seq<Byte>)
    ensures 0 <= FromBytes(bs) < Pow256(|bs|)
    ensures ToBytes(FromBytes(bs), |bs|) == bs
  {
    if bs != [] {
      BytesDetermined(bs[1..]);
      ModUnique(FromBytes(bs), 256, FromBytes(bs[1..]), bs[0]);
    }
  }

  /** Reading eight bytes loses nothing. */
  lemma {:induction false} WordDetermined(bs: seq<Byte>)
    requires |bs| == 8
    ensures Encode64(Decode64(bs)) == bs
  {
    var u := FromBytes(bs);
    BytesDetermined(bs);
    EightBytesHoldAWord();
    WrapInRange(u);
    assert Wrap(u) % MODULUS == u;
  }

  // ----- instructions -----

  datatype Insn = Insn(op: OpCode, argument: int)

  function Width(op: OpCode): nat { if HasArgument(op) then 9 else 1 }

  function Op64(op: OpCode, v: int): (r: seq<Byte>)
    ensures |r| == 9
  {
    [op] + Encode64(v)
  }

  function EncodeInsn(i: Insn): (r: seq<Byte>)
    ensures |r| == Width(i.op)
  {
    if HasArgument(i.op) then Op64(i.op, i.argument) else [i.op]
  }

  function EncodeAll(ins: seq<Insn>): seq<Byte>
  {
    if ins == [] then [] else EncodeInsn(ins[0]) + EncodeAll(ins[1..])
  }

  lemma {:induction false} EncodeTwo(xs: seq<Insn>, ys: seq<Insn>)
    ensures EncodeAll(xs + ys) == EncodeAll(xs) + EncodeAll(ys)
    decreases xs
  {
    if xs == [] {
      assert xs + ys == ys;
    } else {
      assert (xs + ys)[1..] == xs[1..] + ys;
      EncodeTwo(xs[1..], ys);
    }
  }
}
