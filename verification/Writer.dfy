// The one-pass bytecode generator, which writes jumps with a placeholder and moves back to
// fill in their targets (attic/compile_vm.cpp). It is proved to leave exactly the bytes of
// the assembler that knows every label in advance.
module Writer {
  import opened Words
  import opened Bytecode
  import opened Assembler

  /** Overwriting, and growing at the end, from position `p`. */
  function Patch(b: seq<Byte>, p: nat, data: seq<Byte>): (r: seq<Byte>)
    requires p <= |b|
    ensures p + |data| <= |r| && Kept(b, r, p)
  {
    b[..p] + data + (if p + |data| <= |b| then b[p + |data|..] else [])
  }

  lemma {:induction false} PatchTwo(b: seq<Byte>, p: nat, x: seq<Byte>, y: seq<Byte>)
    requires p <= |b|
    ensures Patch(Patch(b, p, x), p + |x|, y) == Patch(b, p, x + y)
  {
    var one := Patch(b, p, x);
    assert one[..p + |x|] == b[..p] + x;
    if p + |x| + |y| <= |b| {
      assert one[p + |x| + |y|..] == b[p + |x| + |y|..];
    }
  }

  /** The first n bytes are the same. */
  predicate Kept(before: seq<Byte>, after: seq<Byte>, n: nat)
  {
    n <= |before| && n <= |after| && after[..n] == before[..n]
  }

  lemma {:induction false} KeptTransitive(a: seq<Byte>, b: seq<Byte>, c: seq<Byte>, n: nat, m: nat)
    requires Kept(a, b, n) && Kept(b, c, m) && n <= m
    ensures Kept(a, c, n)
  {
    assert c[..n] == c[..m][..n] && b[..n] == b[..m][..n];
  }

  lemma {:induction false} PatchThree(b: seq<Byte>, p: nat, x: seq<Byte>, y: seq<Byte>, z: seq<Byte>)
    requires p <= |b|
    ensures Patch(Patch(Patch(b, p, x), p + |x|, y), p + |x| + |y|, z) == Patch(b, p, x + y + z)
  {
    PatchTwo(b, p, x, y);
    PatchTwo(b, p, x + y, z);
  }

  lemma {:induction false} PatchFour(b: seq<Byte>, p: nat, w: seq<Byte>, x: seq<Byte>, y: seq<Byte>, z: seq<Byte>)
    requires p <= |b|
    ensures Patch(Patch(Patch(Patch(b, p, w), p + |w|, x), p + |w| + |x|, y), p + |w| + |x| + |y|, z) ==
            Patch(b, p, w + x + y + z)
  {
    PatchTwo(b, p, w, x);
    PatchTwo(b, p, w + x, y);
    PatchTwo(b, p, w + x + y, z);
  }

  /** Filling in a stretch that was written before touches nothing else. */
  lemma {:induction false} PatchInside(b: seq<Byte>, p: nat, x: seq<Byte>, y: seq<Byte>, z: seq<Byte>,
                                       filled: seq<Byte>)
    requires p <= |b| && |filled| == |y|
    ensures Patch(Patch(b, p, x + y + z), p + |x|, filled) == Patch(b, p, x + filled + z)
  {
    var rest := if p + |x + y + z| <= |b| then b[p + |x + y + z|..] else [];
    Surroundings(b[..p], x, y, z, rest);
    Rejoined(b[..p], x, filled, z, rest);
  }

  lemma Surroundings(a: seq<Byte>, x: seq<Byte>, y: seq<Byte>, z: seq<Byte>, rest: seq<Byte>)
    ensures (a + (x + y + z) + rest)[..|a| + |x|] == a + x
    ensures (a + (x + y + z) + rest)[|a| + |x| + |y|..] == z + rest
  {}

  lemma Rejoined(a: seq<Byte>, x: seq<Byte>, y: seq<Byte>, z: seq<Byte>, rest: seq<Byte>)
    ensures a + x + y + (z + rest) == a + (x + y + z) + rest
  {}

  const PLACEHOLDER: int := 333

  function ExitOp(conjunction: bool): OpCode { if conjunction then JMP0 else JMP1 }

  /** The tail of a short-circuit operator with both its jumps still open. */
  function OpenTail(conjunction: bool, first: seq<Byte>, last: seq<Byte>): seq<Byte>
  {
    first + Op64(PUSHC, BoolWord(conjunction)) + last + Op64(PUSHC, BoolWord(!conjunction))
  }

  /** Three placeholders filled in, in the order the generator fills them. */
  lemma {:induction false} BackpatchThree(b: seq<Byte>, p: nat, x: seq<Byte>, y: seq<Byte>, u: seq<Byte>, v: seq<Byte>,
                                          hole1: seq<Byte>, hole2: seq<Byte>, hole3: seq<Byte>,
                                          j1: seq<Byte>, j2: seq<Byte>, j3: seq<Byte>)
    requires p <= |b| && |hole1| == |j1| && |hole2| == |j2| && |hole3| == |j3|
    ensures var one := Patch(Patch(b, p, x + hole1 + y + hole2 + u + hole3 + v), p + |x|, j1);
            var two := Patch(one, p + |x + j1 + y|, j2);
            Patch(two, p + |x + j1 + y + j2 + u|, j3) == Patch(b, p, x + j1 + y + j2 + u + j3 + v)
  {
    hide Patch;
    var rest1 := y + hole2 + u + hole3 + v;
    assert x + hole1 + y + hole2 + u + hole3 + v == x + hole1 + rest1;
    PatchInside(b, p, x, hole1, rest1, j1);
    var left2, rest2 := x + j1 + y, u + hole3 + v;
    assert x + j1 + rest1 == left2 + hole2 + rest2;
    PatchInside(b, p, left2, hole2, rest2, j2);
    var left3 := x + j1 + y + j2 + u;
    assert left2 + j2 + rest2 == left3 + hole3 + v;
    PatchInside(b, p, left3, hole3, v, j3);
  }

  /** With its placeholders filled in, the code of a short-circuit operator is that of the
      two-pass assembler. */
  lemma {:induction false} ClosedLogical(b: seq<Byte>, p: nat, conjunction: bool, l: seq<Byte>, r: seq<Byte>, done: nat)
    requires p <= |b| && done == p + |l| + |r| + 45
    ensures var hole, j := Op64(ExitOp(conjunction), PLACEHOLDER), Op64(ExitOp(conjunction), done - 9);
            var open := Patch(b, p, l + hole + r + OpenTail(conjunction, hole, Op64(JMP, PLACEHOLDER)));
            Patch(Patch(Patch(open, p + |l|, j), done - 36, j), done - 18, Op64(JMP, done))
            == Patch(b, p, l + j + r + TailBytes(conjunction, done - 9, done))
  {
    hide Patch, Op64;
    var hole, j := Op64(ExitOp(conjunction), PLACEHOLDER), Op64(ExitOp(conjunction), done - 9);
    var u, v := Op64(PUSHC, BoolWord(conjunction)), Op64(PUSHC, BoolWord(!conjunction));
    BackpatchThree(b, p, l, r, u, v, hole, hole, Op64(JMP, PLACEHOLDER), j, j, Op64(JMP, done));
    TailsAppend(l + hole + r, hole, u, Op64(JMP, PLACEHOLDER), v);
    TailsAppend(l + j + r, j, u, Op64(JMP, done), v);
  }

  lemma TailsAppend(a: seq<Byte>, w: seq<Byte>, x: seq<Byte>, y: seq<Byte>, z: seq<Byte>)
    ensures a + (w + x + y + z) == a + w + x + y + z
  {}

  class BytecodeWriter {
    var bytecode: seq<Byte>
    var pos: nat

    predicate Valid()
      reads this
    {
      pos <= |bytecode|
    }

    constructor ()
      ensures Valid() && bytecode == [] && pos == 0
    {
      bytecode, pos := [], 0;
    }

    method WriteData(data: seq<Byte>)
      requires Valid()
      modifies this
      ensures Valid() && bytecode == Patch(old(bytecode), old(pos), data) && pos == old(pos) + |data|
    {
      if pos + |data| > |bytecode| {
        bytecode := bytecode + seq(pos + |data| - |bytecode|, _ => 0);
      }
      bytecode := bytecode[..pos] + data + bytecode[pos + |data|..];
      pos := pos + |data|;
    }

    method WriteOp(op: OpCode) returns (addr: nat)
      requires Valid()
      modifies this
      ensures Valid() && bytecode == Patch(old(bytecode), old(pos), [op]) && pos == old(pos) + 1 && addr == old(pos)
    {
      addr := pos;
      WriteData([op]);
    }

    method WriteOp64(op: OpCode, value: int) returns (addr: nat)
      requires Valid()
      modifies this
      ensures Valid() && bytecode == Patch(old(bytecode), old(pos), Op64(op, value)) && pos == old(pos) + 9 &&
              addr == old(pos)
    {
      addr := pos;
      WriteData([op]);
      WriteData(Encode64(value));
      PatchTwo(old(bytecode), old(pos), [op], Encode64(value));
    }

    /** On success the bytes from the old position on are those of the two-pass assembler,
        whatever was there before; it succeeds exactly on the supported trees, and never
        touches an earlier byte. */
    method GenerateCode(e: Node) returns (ok: bool)
      requires Valid()
      modifies this
      ensures Valid() && ok == Supported(e)
      ensures ok ==> bytecode == Patch(old(bytecode), old(pos), CodeBytes(e, old(pos))) && pos == old(pos) + Size(e)
      ensures pos >= old(pos) && Kept(old(bytecode), bytecode, old(pos))
      decreases Size(e), 1
    {
      match e
      case Literal(v) =>
        var _ := WriteOp64(PUSHC, v);
        BytesOfLiteral(v, old(pos));
        return true;
      case Binary(op, l, r) =>
        ok := GenerateBinary(op, l, r);
      case Logical(conjunction, l, r) =>
        ok := GenerateLogical(conjunction, l, r);
      case Other =>
        return false;
    }

    method GenerateBinary(op: BinOp, l: Node, r: Node) returns (ok: bool)
      requires Valid()
      modifies this
      ensures Valid() && ok == (Supported(l) && Supported(r))
      ensures ok ==> bytecode == Patch(old(bytecode), old(pos), CodeBytes(Binary(op, l, r), old(pos)))
      ensures ok ==> pos == old(pos) + Size(l) + Size(r) + 1
      ensures pos >= old(pos) && Kept(old(bytecode), bytecode, old(pos))
      decreases Size(l) + Size(r) + 1, 0
    {
      hide Patch, CodeBytes, OpCodeOf;
      ghost var b, p := bytecode, pos;
      ok := GenerateCode(l);
      if !ok {
        return;
      }
      ghost var b', p' := bytecode, pos;
      ok := GenerateCode(r);
      KeptTransitive(b, b', bytecode, p, p');
      if !ok {
        return;
      }
      var _ := WriteOp(OpCodeOf(op));
      SizeCounts(l, p);
      SizeCounts(r, p');
      PatchThree(b, p, CodeBytes(l, p), CodeBytes(r, p'), [OpCodeOf(op)]);
      BytesOfBinary(op, l, r, p);
    }

    /** The left operand of a short-circuit operator and the open jump behind it. */
    method GenerateLeft(conjunction: bool, l: Node) returns (ok: bool, exit1: nat)
      requires Valid()
      modifies this
      ensures Valid() && ok == Supported(l)
      ensures ok ==> bytecode == Patch(old(bytecode), old(pos),
                                       CodeBytes(l, old(pos)) + Op64(ExitOp(conjunction), PLACEHOLDER))
      ensures ok ==> exit1 == old(pos) + Size(l) && pos == exit1 + 9
      ensures pos >= old(pos) && Kept(old(bytecode), bytecode, old(pos))
      decreases Size(l), 2
    {
      hide Patch, CodeBytes, Op64, ExitOp;
      exit1 := 0;
      ghost var b, p := bytecode, pos;
      ok := GenerateCode(l);
      if ok {
        exit1 := WriteOp64(ExitOp(conjunction), PLACEHOLDER);
        SizeCounts(l, p);
        PatchTwo(b, p, CodeBytes(l, p), Op64(ExitOp(conjunction), PLACEHOLDER));
      }
    }

    /** The operands of a short-circuit operator, with an open jump between them. */
    method GenerateOperands(conjunction: bool, l: Node, r: Node) returns (ok: bool, exit1: nat)
      requires Valid()
      modifies this
      ensures Valid() && ok == (Supported(l) && Supported(r))
      ensures ok ==> var p := old(pos);
                     bytecode == Patch(old(bytecode), p, CodeBytes(l, p) + Op64(ExitOp(conjunction), PLACEHOLDER)
                                                         + CodeBytes(r, p + Size(l) + 9))
      ensures ok ==> exit1 == old(pos) + Size(l) && pos == exit1 + 9 + Size(r)
      ensures pos >= old(pos) && Kept(old(bytecode), bytecode, old(pos))
      decreases Size(l) + Size(r), 3
    {
      hide Patch, CodeBytes, Op64, ExitOp;
      ghost var b, p := bytecode, pos;
      ok, exit1 := GenerateLeft(conjunction, l);
      if !ok {
        return;
      }
      ghost var b', p' := bytecode, pos;
      ok := GenerateCode(r);
      KeptTransitive(b, b', bytecode, p, p');
      if ok {
        SizeCounts(l, p);
        PatchTwo(b, p, CodeBytes(l, p) + Op64(ExitOp(conjunction), PLACEHOLDER), CodeBytes(r, p'));
      }
    }

    /** The rest of a short-circuit operator whose operands compiled to `x` and `y`. */
    method CloseLogical(conjunction: bool, exit1: nat, ghost b: seq<Byte>, ghost p: nat, ghost x: seq<Byte>,
                        ghost y: seq<Byte>)
      requires Valid() && p <= |b| && bytecode == Patch(b, p, x + Op64(ExitOp(conjunction), PLACEHOLDER) + y)
      requires exit1 == p + |x| && pos == exit1 + 9 + |y|
      modifies this
      ensures Valid() && pos == old(pos) + 36
      ensures bytecode == Patch(b, p, x + Op64(ExitOp(conjunction), pos - 9) + y + TailBytes(conjunction, pos - 9, pos))
    {
      hide Patch, CodeBytes, ExitOp;
      ghost var hole := Op64(ExitOp(conjunction), PLACEHOLDER);
      var exit2, toDone, early, done := WriteTail(conjunction);
      PatchTwo(b, p, x + hole + y, OpenTail(conjunction, hole, Op64(JMP, PLACEHOLDER)));
      Backpatch(conjunction, exit1, exit2, toDone, early, done);
      ClosedLogical(b, p, conjunction, x, y, done);
    }

    method GenerateLogical(conjunction: bool, l: Node, r: Node) returns (ok: bool)
      requires Valid()
      modifies this
      ensures Valid() && ok == (Supported(l) && Supported(r))
      ensures ok ==> bytecode == Patch(old(bytecode), old(pos), CodeBytes(Logical(conjunction, l, r), old(pos)))
      ensures ok ==> pos == old(pos) + Size(l) + Size(r) + 45
      ensures pos >= old(pos) && Kept(old(bytecode), bytecode, old(pos))
      decreases Size(l) + Size(r) + 1, 0
    {
      hide Patch, CodeBytes, Op64, TailBytes;
      ghost var b, p := bytecode, pos;
      var exit1;
      ok, exit1 := GenerateOperands(conjunction, l, r);
      if ok {
        ghost var x, y := CodeBytes(l, p), CodeBytes(r, p + Size(l) + 9);
        SizeCounts(l, p);
        SizeCounts(r, p + Size(l) + 9);
        CloseLogical(conjunction, exit1, b, p, x, y);
        BytesOfLogical(conjunction, l, r, p);
      }
    }

    method WriteTail(conjunction: bool) returns (exit2: nat, toDone: nat, early: nat, done: nat)
      requires Valid()
      modifies this
      ensures Valid() && exit2 == old(pos) && toDone == old(pos) + 18 && early == old(pos) + 27
      ensures done == pos == old(pos) + 36
      ensures bytecode == Patch(old(bytecode), old(pos),
                                OpenTail(conjunction, Op64(ExitOp(conjunction), PLACEHOLDER), Op64(JMP, PLACEHOLDER)))
    {
      exit2 := WriteOp64(ExitOp(conjunction), PLACEHOLDER);
      var _ := WriteOp64(PUSHC, BoolWord(conjunction));
      toDone := WriteOp64(JMP, PLACEHOLDER);
      early := pos;
      var _ := WriteOp64(PUSHC, BoolWord(!conjunction));
      done := pos;
      PatchFour(old(bytecode), old(pos), Op64(ExitOp(conjunction), PLACEHOLDER), Op64(PUSHC, BoolWord(conjunction)),
                Op64(JMP, PLACEHOLDER), Op64(PUSHC, BoolWord(!conjunction)));
    }

    method Backpatch(conjunction: bool, exit1: nat, exit2: nat, toDone: nat, early: nat, done: nat)
      requires Valid() && pos == done && exit1 + 9 <= done && exit2 + 9 <= done && toDone + 9 <= done
      modifies this
      ensures Valid() && pos == done
      ensures bytecode == Patch(Patch(Patch(old(bytecode), exit1, Op64(ExitOp(conjunction), early)),
                                      exit2, Op64(ExitOp(conjunction), early)),
                                toDone, Op64(JMP, done))
    {
      pos := exit1;
      var _ := WriteOp64(ExitOp(conjunction), early);
      pos := exit2;
      var _ := WriteOp64(ExitOp(conjunction), early);
      pos := toDone;
      var _ := WriteOp64(JMP, done);
      pos := done;
    }
  }
}
