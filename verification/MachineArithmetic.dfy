// What the stack machine's operators are: the operators of the source language on signed
// 64-bit numbers.
module MachineArithmetic {
  import opened Words
  import opened NumberLaws
  import opened Bytecode
  import opened VirtualMachine

  const WORD: IntType := Int(true, 8)

  predicate IsBitwise(op: BinOp) { op in {BitAnd, BitOr, BitXor} }

  function KindOf(op: BinOp): BitKind
    requires IsBitwise(op)
  {
    match op case BitAnd => And case BitOr => Or case _ => Xor
  }

  /** What an operator means on two signed 64-bit numbers: a truth value, the bitwise operator
      on their bit patterns, or the number, wrapped; None where it means nothing. */
  function Answer(op: BinOp, a: int, b: int): Option<int>
  {
    var w := WORD.Width();
    if IsComparison(op) then Some(BoolWord(Compare(op, a, b)))
    else if IsBitwise(op) then Some(Signed(BitOp(KindOf(op), Unsigned(a, w), Unsigned(b, w), w), w))
    else match OnNumbers(op, WORD, a, b)
      case None => None
      case Some(v) => Some(Signed(v, w))
  }

  lemma WrapIsSigned(v: int)
    ensures Wrap(v) == Signed(v, WORD.Width()) && v % MODULUS == Unsigned(v, WORD.Width())
    ensures IsInt64(Signed(v, WORD.Width()))
  {
    hide Pow2;
    PowersOf(WORD.Width());
  }

  /** The machine computes what is meant, and stops exactly where nothing is. */
  lemma {:induction false} ArithmeticIsMeant(op: BinOp, a: int, b: int)
    requires IsInt64(a) && IsInt64(b)
    ensures Arithmetic(op, a, b) == Answer(op, a, b)
  {
    hide Wrap, Signed, Unsigned, Pow2, BitOp, TruncDiv, TruncMod;
    var w := WORD.Width();
    PowersOf(w);
    WrapIsSigned(a);
    WrapIsSigned(b);
    match op
    case Mul => WrapIsSigned(a * b);
    case Add => WrapIsSigned(a + b);
    case Sub => WrapIsSigned(a - b);
    case Div => if b != 0 { WrapIsSigned(TruncDiv(a, b)); }
    case Mod => if b != 0 { WrapIsSigned(TruncMod(a, b)); }
    case Shl => if 0 <= b { WrapIsSigned(a * Pow2(b)); }
    case Shr => if 0 <= b { WrapIsSigned(a / Pow2(b)); }
    case BitAnd | BitOr | BitXor => WrapIsSigned(BitOp(KindOf(op), Unsigned(a, w), Unsigned(b, w), w));
    case _ =>
  }

  lemma AnswerFits(op: BinOp, a: int, b: int)
    requires Answer(op, a, b).Some?
    ensures IsInt64(Answer(op, a, b).value)
  {
    hide Signed, Unsigned, BitOp, TruncDiv, TruncMod, Pow2;
    var w := WORD.Width();
    if IsBitwise(op) {
      WrapIsSigned(BitOp(KindOf(op), Unsigned(a, w), Unsigned(b, w), w));
    } else if !IsComparison(op) {
      WrapIsSigned(OnNumbers(op, WORD, a, b).value);
    }
  }

  /** There is no answer exactly for a division by zero, for that of the least number by -1, and
      for a shift by less than 0 or more than 63. */
  lemma StopsExactly(op: BinOp, a: int, b: int)
    requires IsInt64(a) && IsInt64(b)
    ensures Arithmetic(op, a, b) == None <==>
            || (op in {Div, Mod} && (b == 0 || (a == -0x8000_0000_0000_0000 && b == -1)))
            || (op in {Shl, Shr} && !(0 <= b <= 63))
  {
    hide Wrap, BitOp, TruncDiv, TruncMod, Pow2;
  }

  // ----- bits and shifts -----

  /** The low bits of a number are those of its pattern. */
  lemma {:induction false} BitOfPattern(a: int, w: nat, i: nat)
    requires i < w
    ensures Bit(Unsigned(a, w), i) == Bit(a, i) && Bit(Signed(a, w), i) == Bit(a, i)
  {
    hide Pow2;
    var m := Pow2(i);
    Pow2Splits(i, w - i);
    Doubled(w - i);
    var c := Pow2(w - i - 1);
    assert Pow2(w) == m * (2 * c);
    var q := a / Pow2(w);
    assert a == q * Pow2(w) + Unsigned(a, w);
    BitsApart(a, Unsigned(a, w), m, c, q);
    var k := ReadingsDiffer(a, w);
    BitsApart(Signed(a, w), Unsigned(a, w), m, c, k);
  }

  lemma {:induction false} BitsApart(a: int, b: int, m: int, c: int, q: int)
    requires m > 0 && a == b + q * (m * (2 * c))
    ensures (a / m) % 2 == (b / m) % 2
  {
    var d := b / m;
    assert b == d * m + b % m;
    assert q * (m * (2 * c)) == (2 * (q * c)) * m;
    assert a == (d + 2 * (q * c)) * m + b % m by { assert (d + 2 * (q * c)) * m == d * m + (2 * (q * c)) * m; }
    ModUnique(a, m, d + 2 * (q * c), b % m);
    ModCongruent(d + 2 * (q * c), d, 2, q * c);
  }

  /** The bitwise operators, signs included: each bit of the result is that of the operator on
      the bits of the operands. */
  lemma {:induction false} MachineBitsAreBitwise(op: BinOp, a: int, b: int, i: nat)
    requires IsInt64(a) && IsInt64(b) && i < 64 && IsBitwise(op)
    ensures Arithmetic(op, a, b).Some?
    ensures var x, y, z := Bit(a, i), Bit(b, i), Bit(Arithmetic(op, a, b).value, i);
            match op case BitAnd => z == (x && y) case BitOr => z == (x || y) case _ => z == (x != y)
  {
    hide Signed, Unsigned, Pow2, BitOp, Bit, Arithmetic;
    var w := WORD.Width();
    ArithmeticIsMeant(op, a, b);
    var r := BitOp(KindOf(op), Unsigned(a, w), Unsigned(b, w), w);
    BitOfPattern(a, w, i);
    BitOfPattern(b, w, i);
    BitOfPattern(r, w, i);
    BitwiseIsBitByBit(KindOf(op), Unsigned(a, w), Unsigned(b, w), w, i);
  }

  /** The right shift is division by a power of two, rounded down: it keeps the sign. */
  lemma {:induction false} RightShiftKeepsSign(a: int, b: int)
    requires IsInt64(a) && 0 <= b <= 63
    ensures Arithmetic(Shr, a, b).Some?
    ensures var r := Arithmetic(Shr, a, b).value;
            r * Pow2(b) <= a < (r + 1) * Pow2(b) && (r < 0 <==> a < 0)
  {
    hide Pow2;
    var m, q := Pow2(b), a / Pow2(b);
    assert a == q * m + a % m;
    assert (q + 1) * m == q * m + m;
    Floor(a, m);
    WrapInRange(q);
  }

  lemma {:induction false} Floor(a: int, m: int)
    requires m > 0
    ensures a < 0 <==> a / m < 0
    ensures a >= 0 ==> a / m <= a
    ensures a < 0 ==> a <= a / m
  {
    var q, r := a / m, a % m;
    assert a == q * m + r;
    assert q * m == q + q * (m - 1);
    ProductSign(q, m - 1);
    MultipleIsFar(q, m);
  }

  lemma {:induction false} ProductSign(q: int, k: int)
    requires k >= 0
    ensures q >= 0 ==> q * k >= 0
    ensures q < 0 ==> q * k <= -k
  {
    if q >= 0 {
      Grows(q, k);
    } else {
      Grows(-1 - q, k);
      assert (-1 - q) * k == -k - q * k;
    }
  }

  lemma Grows(q: nat, k: nat)
    ensures q * k >= 0
  {}
}
