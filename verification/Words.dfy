// Machine words: bit patterns of the integer types, the source language's operators on
// them, and the LLVM opcodes that code generation selects.
module Words {

  datatype Option<+T> = None | Some(value: T)

  function Pow2(n: nat): (r: int)
    ensures r > 0
  {
    if n == 0 then 1 else 2 * Pow2(n - 1)
  }

  /** The unsigned reading of the low `w` bits of x. */
  function Unsigned(x: int, w: nat): (r: int)
    ensures 0 <= r < Pow2(w)
  {
    x % Pow2(w)
  }

  /** The two's complement reading of the low `w` bits of x. */
  function Signed(x: int, w: nat): int
  {
    var u := Unsigned(x, w);
    if 2 * u >= Pow2(w) then u - Pow2(w) else u
  }

  /** Division that truncates toward zero, as in C++ and in LLVM. */
  function TruncDiv(a: int, b: int): int
    requires b != 0
  {
    if a >= 0 then a / b else -((-a) / b)
  }

  function TruncMod(a: int, b: int): int
    requires b != 0
  {
    a - TruncDiv(a, b) * b
  }

  datatype BitKind = And | Or | Xor

  function BitOp(k: BitKind, a: nat, b: nat, w: nat): nat
  {
    if w == 0 then 0 else
      var x, y := a % 2, b % 2;
      var bit := match k case And => x * y case Or => x + y - x * y case Xor => x + y - 2 * x * y;
      bit + 2 * BitOp(k, a / 2, b / 2, w - 1)
  }

  /** The basic types that hold integers and booleans. */
  datatype IntType = Bool | Int(signed: bool, bytes: nat)
  {
    function Width(): nat {
      match this
      case Bool => 1
      case Int(_, n) => 8 * n
    }
  }

  datatype BinOp =
    | Mul | Div | Mod | Add | Sub
    | BitAnd | BitOr | BitXor | Shl | Shr
    | Eq | Ne | Ge | Gt | Le | Lt

  function BoolWord(b: bool): int { if b then 1 else 0 }

  /** The number a word of type ty stands for. */
  function Decode(ty: IntType, x: int): int
  {
    if ty.Int? && ty.signed then Signed(x, ty.Width()) else Unsigned(x, ty.Width())
  }

  predicate IsComparison(op: BinOp) { op in {Eq, Ne, Ge, Gt, Le, Lt} }

  predicate Compare(op: BinOp, a: int, b: int)
    requires IsComparison(op)
  {
    match op
    case Eq => a == b
    case Ne => a != b
    case Ge => a >= b
    case Gt => a > b
    case Le => a <= b
    case Lt => a < b
  }

  /** Dividing by zero, and dividing the least signed number by -1, is undefined. */
  predicate DivisionDefined(ty: IntType, a: int, b: int)
  {
    b != 0 && !(ty.Int? && ty.signed && 2 * a == -Pow2(ty.Width()) && b == -1)
  }

  /** What an arithmetic or bitwise operator means on numbers. None: the language leaves it
      undefined. */
  function OnNumbers(op: BinOp, ty: IntType, a: int, b: int): Option<int>
    requires !IsComparison(op)
  {
    match op
    case Mul => Some(a * b)
    case Add => Some(a + b)
    case Sub => Some(a - b)
    case Div => if DivisionDefined(ty, a, b) then Some(TruncDiv(a, b)) else None
    case Mod => if DivisionDefined(ty, a, b) then Some(TruncMod(a, b)) else None
    case BitAnd => if a < 0 || b < 0 then None else Some(BitOp(And, a, b, ty.Width()))
    case BitOr => if a < 0 || b < 0 then None else Some(BitOp(Or, a, b, ty.Width()))
    case BitXor => if a < 0 || b < 0 then None else Some(BitOp(Xor, a, b, ty.Width()))
    case Shl => if 0 <= b < ty.Width() then Some(a * Pow2(b)) else None
    case Shr => if 0 <= b < ty.Width() then Some(a / Pow2(b)) else None
  }

  /** The word a source operator yields: read both words as numbers, apply the operator,
      wrap to the width. An undefined application yields whatever `undef` picks. */
  function Meaning(op: BinOp, ty: IntType, x: int, y: int, undef: (int, int) -> int): int
  {
    var a, b := Decode(ty, x), Decode(ty, y);
    if IsComparison(op) then BoolWord(Compare(op, a, b)) else
    match OnNumbers(op, ty, a, b)
    case Some(v) => Unsigned(v, ty.Width())
    case None => undef(x, y)
  }

  // ----- LLVM opcodes -----

  datatype Opcode =
    | IMul | SDiv | UDiv | SRem | URem | IAdd | ISub | IAnd | IOr | IXor | IShl | LShr
    | IcmpEq | IcmpNe | Sge | Sgt | Sle | Slt | Uge | Ugt | Ule | Ult

  /** The opcode `generate_code(BinaryOperatorNode)` picks for an operand type. */
  function Select(op: BinOp, ty: IntType): Opcode
  {
    var unsigned := ty.Int? && !ty.signed;
    match op
    case Mul => IMul
    case Div => if unsigned then UDiv else SDiv
    case Mod => if unsigned then URem else SRem
    case Add => IAdd
    case Sub => ISub
    case BitAnd => IAnd
    case BitOr => IOr
    case BitXor => IXor
    case Shl => IShl
    case Shr => LShr
    case Eq => IcmpEq
    case Ne => IcmpNe
    case Ge => if unsigned then Uge else Sge
    case Gt => if unsigned then Ugt else Sgt
    case Le => if unsigned then Ule else Sle
    case Lt => if unsigned then Ult else Slt
  }

  /** The opcodes on `w`-bit patterns, as the LLVM language reference defines them. */
  function Apply(opc: Opcode, w: nat, x: int, y: int, undef: (int, int) -> int): int
  {
    var a, b, sa, sb := Unsigned(x, w), Unsigned(y, w), Signed(x, w), Signed(y, w);
    match opc
    case IMul => (a * b) % Pow2(w)
    case IAdd => (a + b) % Pow2(w)
    case ISub => (a - b) % Pow2(w)
    case SDiv => if sb == 0 || (2 * sa == -Pow2(w) && sb == -1) then undef(x, y) else TruncDiv(sa, sb) % Pow2(w)
    case SRem => if sb == 0 || (2 * sa == -Pow2(w) && sb == -1) then undef(x, y) else TruncMod(sa, sb) % Pow2(w)
    case UDiv => if b == 0 then undef(x, y) else (a / b) % Pow2(w)
    case URem => if b == 0 then undef(x, y) else (a % b) % Pow2(w)
    case IAnd => BitOp(And, a, b, w) % Pow2(w)
    case IOr => BitOp(Or, a, b, w) % Pow2(w)
    case IXor => BitOp(Xor, a, b, w) % Pow2(w)
    case IShl => if b < w then (a * Pow2(b)) % Pow2(w) else undef(x, y)
    case LShr => if b < w then (a / Pow2(b)) % Pow2(w) else undef(x, y)
    case IcmpEq => BoolWord(a == b)
    case IcmpNe => BoolWord(a != b)
    case Sge => BoolWord(sa >= sb)
    case Sgt => BoolWord(sa > sb)
    case Sle => BoolWord(sa <= sb)
    case Slt => BoolWord(sa < sb)
    case Uge => BoolWord(a >= b)
    case Ugt => BoolWord(a > b)
    case Ule => BoolWord(a <= b)
    case Ult => BoolWord(a < b)
  }

  /** Operators and operand types for which the selected opcode has the source meaning on all
      words. Ordering and dividing booleans, which the type checker accepts, is not among
      them; neither are the bitwise operators and the right shift of signed integers, which
      it refuses. */
  predicate Faithful(op: BinOp, ty: IntType)
  {
    match ty
    case Bool => op !in {Div, Mod, Ge, Gt, Le, Lt}
    case Int(signed, _) => signed ==> op !in {BitAnd, BitOr, BitXor, Shr}
  }

  lemma {:induction false} MultipleIsFar(k: int, m: int)
    requires m > 0
    ensures k >= 1 ==> k * m >= m
    ensures k <= -1 ==> k * m <= -m
  {
    if k >= 1 {
      assert (k - 1) * m >= 0;
    } else if k <= -1 {
      assert (-1 - k) * m >= 0;
    }
  }

  lemma {:induction false} ModUnique(a: int, m: int, q: int, r: int)
    requires m > 0 && a == q * m + r && 0 <= r < m
    ensures a / m == q && a % m == r
  {
    var q', r' := a / m, a % m;
    assert a == q' * m + r';
    assert (q - q') * m == r' - r;
    MultipleIsFar(q - q', m);
  }

  lemma {:induction false} ModCongruent(a: int, b: int, m: int, k: int)
    requires m > 0 && a == b + k * m
    ensures a % m == b % m
  {
    var q, r := b / m, b % m;
    assert a == (q + k) * m + r;
    ModUnique(a, m, q + k, r);
  }

  lemma {:induction false} ProductOfShifted(a: int, b: int, i: int, j: int, m: int)
    requires m > 0
    ensures ((a + i * m) * (b + j * m)) % m == (a * b) % m
  {
    var p, q := i * m, j * m;
    assert (a + p) * (b + q) == a * b + a * q + p * b + p * q;
    assert a * q == (a * j) * m;
    assert p * b == (i * b) * m;
    assert p * q == (p * j) * m;
    assert a * q + p * b + p * q == (a * j + i * b + p * j) * m;
    ModCongruent((a + p) * (b + q), a * b, m, a * j + i * b + p * j);
  }

  lemma {:induction false} SumOfShifted(a: int, b: int, i: int, j: int, m: int)
    requires m > 0
    ensures ((a + i * m) + (b + j * m)) % m == (a + b) % m
  {
    assert i * m + j * m == (i + j) * m;
    ModCongruent((a + i * m) + (b + j * m), a + b, m, i + j);
  }

  lemma NegatedMultiple(j: int, m: int)
    ensures (-j) * m == -(j * m)
  {}

  /** Signed and unsigned readings differ by zero or one modulus. */
  lemma {:induction false} ReadingsDiffer(x: int, w: nat) returns (k: int)
    ensures Signed(x, w) == Unsigned(x, w) + k * Pow2(w)
  {
    k := if Signed(x, w) == Unsigned(x, w) then 0 else -1;
  }

  // Wrapping forgets which of the two readings the arithmetic was done on.

  lemma {:induction false} ProductForgetsSign(x: int, y: int, w: nat)
    ensures (Signed(x, w) * Signed(y, w)) % Pow2(w) == (Unsigned(x, w) * Unsigned(y, w)) % Pow2(w)
  {
    hide Signed, Unsigned, Pow2;
    var i := ReadingsDiffer(x, w);
    var j := ReadingsDiffer(y, w);
    ProductOfShifted(Unsigned(x, w), Unsigned(y, w), i, j, Pow2(w));
  }

  lemma {:induction false} SumForgetsSign(x: int, y: int, w: nat)
    ensures (Signed(x, w) + Signed(y, w)) % Pow2(w) == (Unsigned(x, w) + Unsigned(y, w)) % Pow2(w)
  {
    hide Signed, Unsigned, Pow2;
    var i := ReadingsDiffer(x, w);
    var j := ReadingsDiffer(y, w);
    SumOfShifted(Unsigned(x, w), Unsigned(y, w), i, j, Pow2(w));
  }

  lemma {:induction false} DifferenceForgetsSign(x: int, y: int, w: nat)
    ensures (Signed(x, w) - Signed(y, w)) % Pow2(w) == (Unsigned(x, w) - Unsigned(y, w)) % Pow2(w)
  {
    hide Signed, Unsigned, Pow2;
    var i := ReadingsDiffer(x, w);
    var j := ReadingsDiffer(y, w);
    SumOfShifted(Unsigned(x, w), -Unsigned(y, w), i, -j, Pow2(w));
    NegatedMultiple(j, Pow2(w));
  }

  lemma EqualReadings(x: int, y: int, w: nat)
    ensures Signed(x, w) == Signed(y, w) <==> Unsigned(x, w) == Unsigned(y, w)
  {}

  lemma {:induction false} RemainderOfNonNegative(a: int, b: int)
    requires a >= 0 && b != 0
    ensures TruncMod(a, b) == a % b
  {
    assert a == (a / b) * b + a % b;
  }

  lemma {:induction false} SelectRing(op: BinOp, ty: IntType, x: int, y: int, undef: (int, int) -> int)
    requires op in {Mul, Add, Sub}
    ensures Apply(Select(op, ty), ty.Width(), x, y, undef) == Meaning(op, ty, x, y, undef)
  {
    hide Signed, Pow2, BitOp;
    match op
    case Mul => ProductForgetsSign(x, y, ty.Width());
    case Add => SumForgetsSign(x, y, ty.Width());
    case Sub => DifferenceForgetsSign(x, y, ty.Width());
  }

  lemma {:induction false} SelectComparison(op: BinOp, ty: IntType, x: int, y: int, undef: (int, int) -> int)
    requires Faithful(op, ty) && IsComparison(op)
    ensures Apply(Select(op, ty), ty.Width(), x, y, undef) == Meaning(op, ty, x, y, undef)
  {
    EqualReadings(x, y, ty.Width());
  }

  lemma {:induction false} SelectSignedDivision(op: BinOp, ty: IntType, x: int, y: int, undef: (int, int) -> int)
    requires op in {Div, Mod} && ty.Int? && ty.signed
    ensures Apply(Select(op, ty), ty.Width(), x, y, undef) == Meaning(op, ty, x, y, undef)
  {
  }

  lemma {:induction false} SelectUnsignedDivision(op: BinOp, ty: IntType, x: int, y: int, undef: (int, int) -> int)
    requires op in {Div, Mod} && ty.Int? && !ty.signed
    ensures Apply(Select(op, ty), ty.Width(), x, y, undef) == Meaning(op, ty, x, y, undef)
  {
    var a, b := Unsigned(x, ty.Width()), Unsigned(y, ty.Width());
    if b != 0 && op == Mod {
      RemainderOfNonNegative(a, b);
    }
  }

  lemma {:induction false} SelectBits(op: BinOp, ty: IntType, x: int, y: int, undef: (int, int) -> int)
    requires op in {BitAnd, BitOr, BitXor, Shl, Shr} && (ty.Bool? || !ty.signed)
    ensures Apply(Select(op, ty), ty.Width(), x, y, undef) == Meaning(op, ty, x, y, undef)
  {
  }

  lemma {:induction false} WidthBelowPower(w: nat)
    requires w >= 3
    ensures w < Pow2(w - 1) && Pow2(w) == 2 * Pow2(w - 1)
  {
    if w > 3 {
      WidthBelowPower(w - 1);
    } else {
      assert Pow2(2) == 2 * Pow2(1) == 4 * Pow2(0);
    }
  }

  lemma {:induction false} ScaledShifted(a: int, k: int, m: int, p: int)
    requires m > 0
    ensures ((a + k * m) * p) % m == (a * p) % m
  {
    assert (a + k * m) * p == a * p + (k * m) * p;
    assert (k * m) * p == (k * p) * m;
    ModCongruent((a + k * m) * p, a * p, m, k * p);
  }

  /** Shifting left wraps, so it does not matter whether the operand was read as signed. */
  lemma {:induction false} SelectSignedShift(ty: IntType, x: int, y: int, undef: (int, int) -> int)
    requires ty.Int? && ty.signed
    ensures Apply(Select(Shl, ty), ty.Width(), x, y, undef) == Meaning(Shl, ty, x, y, undef)
  {
    hide Pow2;
    var w, a, b := ty.Width(), Unsigned(x, ty.Width()), Unsigned(y, ty.Width());
    if w > 0 {
      WidthBelowPower(w);
      var k := ReadingsDiffer(x, w);
      ScaledShifted(a, k, Pow2(w), Pow2(b));
    } else {
      PowerZero();
    }
  }

  lemma PowerZero()
    ensures Pow2(0) == 1
  {}

  /** Opcode selection realises the meaning of every faithful operator. */
  lemma {:induction false} SelectionRealisesMeaning(op: BinOp, ty: IntType, x: int, y: int, undef: (int, int) -> int)
    requires Faithful(op, ty)
    ensures Apply(Select(op, ty), ty.Width(), x, y, undef) == Meaning(op, ty, x, y, undef)
  {
    match op
    case Mul | Add | Sub => SelectRing(op, ty, x, y, undef);
    case Div | Mod =>
      if ty.signed {
        SelectSignedDivision(op, ty, x, y, undef);
      } else {
        SelectUnsignedDivision(op, ty, x, y, undef);
      }
    case BitAnd | BitOr | BitXor | Shl | Shr =>
      if ty.Int? && ty.signed {
        SelectSignedShift(ty, x, y, undef);
      } else {
        SelectBits(op, ty, x, y, undef);
      }
    case _ => SelectComparison(op, ty, x, y, undef);
  }

  /** Booleans are compared as one-bit signed words, where true is -1. */
  lemma {:induction false} BooleanOrderIsInverted(op: BinOp, undef: (int, int) -> int, x: int, y: int)
    requires op in {Ge, Gt, Le, Lt}
    ensures Apply(Select(op, Bool), 1, x, y, undef) == Meaning(op, Bool, y, x, undef)
    ensures Apply(Select(op, Bool), 1, x, y, undef) == Meaning(op, Bool, x, y, undef)
            <==> (Unsigned(x, 1) == Unsigned(y, 1))
  {
    assert Pow2(1) == 2 * Pow2(0) == 2;
  }

  /** Dividing booleans: right unless both are true, when the signed opcode divides -1 by -1
      in a one-bit word, which LLVM leaves undefined. */
  lemma {:induction false} BooleanDivisionIsUndefinedOnTrue(op: BinOp, x: int, y: int, undef: (int, int) -> int)
    requires op in {Div, Mod}
    ensures var result := Apply(Select(op, Bool), 1, x, y, undef);
            if Unsigned(x, 1) == 1 && Unsigned(y, 1) == 1
            then result == undef(x, y) && Meaning(op, Bool, x, y, undef) == (if op == Div then 1 else 0)
            else result == Meaning(op, Bool, x, y, undef)
  {
    hide Apply, Meaning, Select;
    DividedBits(op, x, y, undef);
    QuotientOfTruths(op, x, y, undef);
    OneBit(x);
    OneBit(y);
  }

  lemma {:induction false} DividedBits(op: BinOp, x: int, y: int, undef: (int, int) -> int)
    requires op in {Div, Mod}
    ensures Apply(Select(op, Bool), 1, x, y, undef) == if y % 2 == 0 || x % 2 == 1 then undef(x, y) else 0
  {
    hide Pow2, Unsigned, Signed, BitOp;
    OneBit(x);
    OneBit(y);
    OneBit(0);
    assert TruncDiv(0, -1) == 0 && TruncMod(0, -1) == 0;
  }

  lemma {:induction false} QuotientOfTruths(op: BinOp, x: int, y: int, undef: (int, int) -> int)
    requires op in {Div, Mod}
    ensures Meaning(op, Bool, x, y, undef) == if y % 2 == 0 then undef(x, y) else if op == Div then x % 2 else 0
  {
    hide Pow2, Unsigned, Signed, BitOp, TruncDiv, TruncMod;
    OneBit(x);
    OneBit(y);
    if y % 2 == 1 {
      DivideByOne(x % 2);
      OneBit(0);
      OneBit(1);
      assert OnNumbers(op, Bool, x % 2, 1) == Some(if op == Div then x % 2 else 0);
    }
  }

  lemma DivideByOne(a: int)
    ensures TruncDiv(a, 1) == a && TruncMod(a, 1) == 0
  {}

  lemma {:induction false} OneBit(x: int)
    ensures Pow2(1) == 2 && Unsigned(x, 1) == x % 2 && 0 <= x % 2 <= 1 && Signed(x, 1) == -(x % 2)
  {
    assert Pow2(1) == 2 * Pow2(0) == 2;
  }

  lemma {:induction false} SignedOfNumber(v: int, w: nat)
    requires w > 0 && -Pow2(w - 1) <= v < Pow2(w - 1)
    ensures Signed(v, w) == v && Signed(Unsigned(v, w), w) == v
  {
    var m := Pow2(w);
    assert m == 2 * Pow2(w - 1);
    if v >= 0 {
      ModUnique(v, m, 0, v);
      ModUnique(v % m, m, 0, v);
    } else {
      ModUnique(v, m, -1, v + m);
      ModUnique(v + m, m, 0, v + m);
    }
  }

  // ----- casts between integer types -----

  function CastMeaning(from: IntType, to: IntType, x: int): int
  {
    Unsigned(Decode(from, x), to.Width())
  }

  /** CreateIntCast with the signed flag: sign extension or truncation. */
  function ApplyCast(fromWidth: nat, toWidth: nat, x: int): int
  {
    if fromWidth < toWidth then Unsigned(Signed(x, fromWidth), toWidth) else Unsigned(Unsigned(x, fromWidth), toWidth)
  }

  lemma {:induction false} Pow2Splits(a: nat, b: nat)
    ensures Pow2(a + b) == Pow2(a) * Pow2(b)
  {
    if a > 0 {
      Pow2Splits(a - 1, b);
    }
  }

  lemma {:induction false} CastRealisesMeaning(from: IntType, to: IntType, x: int)
    requires from.Int? && from.signed && to.Int? && to.signed
    ensures ApplyCast(from.Width(), to.Width(), x) == CastMeaning(from, to, x)
  {
    var w, v := from.Width(), to.Width();
    if w >= v {
      Pow2Splits(v, w - v);
      var u: int, s := Unsigned(x, w), Signed(x, w);
      var k: int := if s == u then 0 else -Pow2(w - v);
      assert s == u + k * Pow2(v);
      ModCongruent(s, u, Pow2(v), k);
    }
  }

  // ----- where opcode selection is wrong -----

  /** Opcode and operator agree on all words, whatever undefined operations yield. */
  ghost predicate RightOnAllWords(op: BinOp, ty: IntType)
  {
    forall x: int, y: int, undef: (int, int) -> int ::
      Apply(Select(op, ty), ty.Width(), x, y, undef) == Meaning(op, ty, x, y, undef)
  }

  lemma {:induction false} MinusOne(w: nat)
    requires w > 0
    ensures Unsigned(-1, w) == Pow2(w) - 1 && Signed(-1, w) == -1 && Pow2(w) == 2 * Pow2(w - 1)
  {
    ModUnique(-1, Pow2(w), -1, Pow2(w) - 1);
  }

  /** Opcode selection is right on all words exactly for the faithful operators. */
  lemma {:induction false} FaithfulIsExact(op: BinOp, ty: IntType)
    requires ty.Width() > 0
    ensures RightOnAllWords(op, ty) <==> Faithful(op, ty)
  {
    if Faithful(op, ty) {
      forall x: int, y: int, undef: (int, int) -> int
        ensures Apply(Select(op, ty), ty.Width(), x, y, undef) == Meaning(op, ty, x, y, undef)
      {
        SelectionRealisesMeaning(op, ty, x, y, undef);
      }
    } else if ty.Bool? {
      BooleanFailure(op);
    } else {
      SignedFailure(op, ty);
    }
  }

  lemma {:induction false} BooleanFailure(op: BinOp)
    requires !Faithful(op, Bool)
    ensures !RightOnAllWords(op, Bool)
  {
    var undef := (a: int, b: int) => 2;
    assert Pow2(1) == 2 * Pow2(0) == 2;
    if op in {Div, Mod} {
      BooleanDivisionIsUndefinedOnTrue(op, 1, 1, undef);
      assert Apply(Select(op, Bool), Bool.Width(), 1, 1, undef) != Meaning(op, Bool, 1, 1, undef);
    } else {
      BooleanOrderIsInverted(op, undef, 0, 1);
      assert Apply(Select(op, Bool), Bool.Width(), 0, 1, undef) != Meaning(op, Bool, 0, 1, undef);
    }
  }

  /** On negative numbers the bitwise operators have no meaning, and the logical shift is not
      the arithmetic one. */
  lemma {:induction false} SignedFailure(op: BinOp, ty: IntType)
    requires ty.Int? && !Faithful(op, ty) && ty.Width() > 0
    ensures !RightOnAllWords(op, ty)
  {
    hide Pow2, BitOp;
    var w := ty.Width();
    MinusOne(w);
    if op == Shr {
      var undef := (a: int, b: int) => 0;
      ShiftedMinusOne(w);
      SignedOfOne(w);
      assert Apply(Select(op, ty), w, -1, 1, undef) != Meaning(op, ty, -1, 1, undef);
    } else {
      var bits := Apply(Select(op, ty), w, -1, -1, (a: int, b: int) => 0);
      var undef := (a: int, b: int) => bits + 1;
      assert Apply(Select(op, ty), w, -1, -1, undef) == bits;
      assert Meaning(op, ty, -1, -1, undef) == bits + 1;
    }
  }

  lemma {:induction false} SignedOfOne(w: nat)
    requires w > 1
    ensures Unsigned(1, w) == 1 && Signed(1, w) == 1
  {
    assert Pow2(w) == 2 * Pow2(w - 1) == 4 * Pow2(w - 2);
    ModUnique(1, Pow2(w), 0, 1);
  }

  lemma {:induction false} ShiftedMinusOne(w: nat)
    requires w > 0
    ensures Pow2(1) == 2 && -1 / Pow2(1) == -1
    ensures ((Pow2(w) - 1) / Pow2(1)) % Pow2(w) == Pow2(w - 1) - 1 && Pow2(w) == 2 * Pow2(w - 1)
  {
    assert Pow2(1) == 2 * Pow2(0) == 2;
    ModUnique(Pow2(w) - 1, 2, Pow2(w - 1) - 1, 1);
    ModUnique(Pow2(w - 1) - 1, Pow2(w), 0, Pow2(w - 1) - 1);
  }
}
